/** What running collective actions does to every element, and why the order of actions rarely matters. */
module Delivery {
  import opened Collective

  /** One execution: its request, the ranks' contributions and the filler of the workspace. */
  datatype Job<E> = Job(request: Request, inputs: seq<seq<E>>, zero: E)

  /** One element of a rank's workspace: its output and its inbox. */
  datatype Cell<E> = Cell(out: E, inbox: E)

  /** Where source `s`'s contribution begins in the workspace. */
  function Shift(r: Request, s: nat): nat {
    if r.kind.AllGather? && s <= |r.lengths| then Base(r.lengths, s) else 0
  }

  /** The element source `s` contributes to workspace position `k`. */
  function Given<E>(job: Job<E>, s: nat, k: nat): E {
    var base := Shift(job.request, s);
    if s < |job.inputs| && base <= k && k - base < |job.inputs[s]| then job.inputs[s][k - base] else job.zero
  }

  predicate Touches(a: Action, d: nat, k: nat) {
    a.destination == d && a.range.start <= k < a.range.start + a.range.len
  }

  function StepCell<E>(job: Job<E>, add: (E, E) -> E, c: Cell<E>, a: Action, d: nat, k: nat): Cell<E> {
    if !Touches(a, d, k) then c
    else
      match a.op
      case Transfer => c.(inbox := Given(job, a.source, k))
      case LocalCopy => c.(out := if a.source == a.destination then Given(job, a.source, k) else c.inbox)
      case ReduceSum => c.(out := add(c.out, c.inbox))
  }

  /** Element `k` of rank `d` after the actions, from cell `c`. */
  function RunCell<E>(job: Job<E>, add: (E, E) -> E, c: Cell<E>, actions: seq<Action>, d: nat, k: nat): Cell<E> {
    if |actions| == 0 then c
    else
      var n := |actions| - 1;
      StepCell(job, add, RunCell(job, add, c, actions[..n], d, k), actions[n], d, k)
  }

  lemma RunPush<E>(job: Job<E>, add: (E, E) -> E, c: Cell<E>, actions: seq<Action>, a: Action, d: nat, k: nat)
    ensures RunCell(job, add, c, actions + [a], d, k) ==
              StepCell(job, add, RunCell(job, add, c, actions, d, k), a, d, k)
  {
    assert (actions + [a])[..|actions|] == actions;
  }

  // Interleaving

  /** A destination's own actions, in order. */
  function OwnActions(actions: seq<Action>, d: nat): seq<Action> {
    if |actions| == 0 then []
    else
      var n := |actions| - 1;
      OwnActions(actions[..n], d) + if actions[n].destination == d then [actions[n]] else []
  }

  lemma {:induction false} RunOwn<E>(job: Job<E>, add: (E, E) -> E, c: Cell<E>, actions: seq<Action>, d: nat, k: nat)
    ensures RunCell(job, add, c, actions, d, k) == RunCell(job, add, c, OwnActions(actions, d), d, k)
  {
    if |actions| > 0 {
      var n := |actions| - 1;
      RunOwn(job, add, c, actions[..n], d, k);
      if actions[n].destination == d {
        RunPush(job, add, c, OwnActions(actions[..n], d), actions[n], d, k);
      } else {
        assert OwnActions(actions, d) == OwnActions(actions[..n], d);
      }
    }
  }

  /** Any interleaving that keeps each destination's own actions in order gives every element the same value. */
  lemma InterleavingInvariant<E>(job: Job<E>, add: (E, E) -> E, c: Cell<E>, plan: seq<Action>, order: seq<Action>,
                                 d: nat, k: nat)
    requires OwnActions(order, d) == OwnActions(plan, d)
    ensures RunCell(job, add, c, order, d, k) == RunCell(job, add, c, plan, d, k)
  {
    RunOwn(job, add, c, plan, d, k);
    RunOwn(job, add, c, order, d, k);
  }

  // Broadcast and all-gather: any order that respects the dependencies

  /** `order` runs planned actions only, runs all of them, and runs what an action depends on before it. */
  ghost predicate Extends(plan: seq<Action>, order: seq<Action>) {
    (forall i :: 0 <= i < |order| ==> order[i] in plan) &&
    (forall a :: a in plan ==> a in order) &&
    forall i :: 0 <= i < |order| ==> Ready(plan, order, i)
  }

  /** All that the action at position `i` depends on runs before it. */
  ghost predicate Ready(plan: seq<Action>, order: seq<Action>, i: nat)
    requires i < |order|
  {
    forall e :: e in order[i].dependsOn ==> e < |plan| && plan[e] in order[..i]
  }

  /** The planned actions that touch element `k` of rank `d` only carry source `s`'s contribution there. */
  ghost predicate Carries(plan: seq<Action>, s: nat, d: nat, k: nat) {
    Landed(plan, s, d, k) && OnlyCarries(plan, s, d, k)
  }

  ghost predicate Landed(plan: seq<Action>, s: nat, d: nat, k: nat) {
    exists i :: 0 <= i < |plan| && Lands(plan[i], s, d, k)
  }

  ghost predicate OnlyCarries(plan: seq<Action>, s: nat, d: nat, k: nat) {
    forall i :: 0 <= i < |plan| && Touches(plan[i], d, k) ==> Carrying(plan, plan[i], s, d, k)
  }

  ghost predicate Lands(a: Action, s: nat, d: nat, k: nat) {
    Touches(a, d, k) && a.op == LocalCopy && a.source == s
  }

  ghost predicate Carrying(plan: seq<Action>, a: Action, s: nat, d: nat, k: nat) {
    a.source == s &&
    (a.op == Transfer || (a.op == LocalCopy && (s == d || AfterTransfer(plan, a, s, d, k))))
  }

  ghost predicate AfterTransfer(plan: seq<Action>, a: Action, s: nat, d: nat, k: nat) {
    exists e :: e in a.dependsOn && e < |plan| && plan[e].op == Transfer && plan[e].source == s &&
      Touches(plan[e], d, k)
  }

  /** Some action of kind `op` among the first `m` has touched the element. */
  ghost predicate Moved(order: seq<Action>, m: nat, op: ActionOp, d: nat, k: nat)
    requires m <= |order|
  {
    exists i :: 0 <= i < m && order[i].op == op && Touches(order[i], d, k)
  }

  lemma MovedNext(order: seq<Action>, m: nat, op: ActionOp, d: nat, k: nat)
    requires m < |order|
    ensures Moved(order, m + 1, op, d, k) <==>
              Moved(order, m, op, d, k) || (order[m].op == op && Touches(order[m], d, k))
  {
  }

  /** A copy from another rank finds its transfer done. */
  lemma TransferFirst(plan: seq<Action>, order: seq<Action>, m: nat, s: nat, d: nat, k: nat)
    requires Extends(plan, order) && m < |order| && Carrying(plan, order[m], s, d, k) && order[m].op == LocalCopy
    requires s != d
    ensures Moved(order, m, Transfer, d, k)
  {
    var e :| e in order[m].dependsOn && e < |plan| && plan[e].op == Transfer && plan[e].source == s &&
      Touches(plan[e], d, k);
    assert Ready(plan, order, m);
    var q :| 0 <= q < m && order[..m][q] == plan[e];
    assert order[q] == plan[e];
  }

  lemma CarryingAt(plan: seq<Action>, order: seq<Action>, m: nat, s: nat, d: nat, k: nat)
    requires Extends(plan, order) && Carries(plan, s, d, k) && m < |order| && Touches(order[m], d, k)
    ensures Carrying(plan, order[m], s, d, k)
  {
    assert order[m] in plan;
    var p :| 0 <= p < |plan| && plan[p] == order[m];
    assert Touches(plan[p], d, k);
  }

  /** Midway through any order: what has been transferred is in the inbox and what has been copied is in the output. */
  lemma {:induction false} CarriedSoFar<E>(job: Job<E>, add: (E, E) -> E, c: Cell<E>, plan: seq<Action>,
                                           order: seq<Action>,
                                           m: nat, s: nat, d: nat, k: nat)
    requires Extends(plan, order) && Carries(plan, s, d, k) && m <= |order|
    ensures var r := RunCell(job, add, c, order[..m], d, k);
            (Moved(order, m, Transfer, d, k) ==> r.inbox == Given(job, s, k)) &&
            (Moved(order, m, LocalCopy, d, k) ==> r.out == Given(job, s, k))
    decreases m
  {
    if m > 0 {
      hide Extends, Carries, Moved, RunCell, AfterTransfer, Given;
      var a := order[m - 1];
      CarriedSoFar(job, add, c, plan, order, m - 1, s, d, k);
      assert order[..m] == order[..m - 1] + [a];
      RunPush(job, add, c, order[..m - 1], a, d, k);
      MovedNext(order, m - 1, Transfer, d, k);
      MovedNext(order, m - 1, LocalCopy, d, k);
      if Touches(a, d, k) {
        CarryingAt(plan, order, m - 1, s, d, k);
        if a.op == LocalCopy && s != d {
          TransferFirst(plan, order, m - 1, s, d, k);
        }
      }
    }
  }

  /** Whatever order respects the dependencies, the element ends as the carried contribution. */
  lemma CarriedAnyOrder<E>(job: Job<E>, add: (E, E) -> E, c: Cell<E>, plan: seq<Action>, order: seq<Action>, s: nat,
                           d: nat, k: nat)
    requires Extends(plan, order) && Carries(plan, s, d, k)
    ensures RunCell(job, add, c, order, d, k).out == Given(job, s, k)
  {
    CarriedSoFar(job, add, c, plan, order, |order|, s, d, k);
    assert order[..|order|] == order;
    var i :| 0 <= i < |plan| && Lands(plan[i], s, d, k);
    assert plan[i] in order;
    var j :| 0 <= j < |order| && order[j] == plan[i];
    assert order[j].op == LocalCopy && Touches(order[j], d, k);
  }

  lemma {:induction false} PlanExtendsItself(r: Request, plan: seq<Action>)
    requires r.ranks > 0 && |r.lengths| == r.ranks && AllPlaced(r, plan)
    ensures Extends(plan, plan)
  {
    forall i, e | 0 <= i < |plan| && e in plan[i].dependsOn
      ensures e < |plan| && plan[e] in plan[..i]
    {
      assert Placed(r, plan[i], i);
      assert plan[..i][e] == plan[e];
    }
  }

  // What the broadcast and all-gather plans carry

  lemma AfterTransferGrows(plan: seq<Action>, more: seq<Action>, a: Action, s: nat, d: nat, k: nat)
    requires plan <= more && Carrying(plan, a, s, d, k)
    ensures Carrying(more, a, s, d, k)
  {
  }

  lemma PushCarries(plan: seq<Action>, a: Action, s: nat, d: nat, k: nat)
    requires OnlyCarries(plan, s, d, k) && (Touches(a, d, k) ==> Carrying(plan, a, s, d, k))
    ensures OnlyCarries(plan + [a], s, d, k)
    ensures Landed(plan, s, d, k) || Lands(a, s, d, k) ==> Landed(plan + [a], s, d, k)
  {
    hide Carrying, Lands;
    var more := plan + [a];
    forall i | 0 <= i < |more| && Touches(more[i], d, k)
      ensures Carrying(more, more[i], s, d, k)
    {
      if i < |plan| {
        assert more[i] == plan[i];
      }
      AfterTransferGrows(plan, more, more[i], s, d, k);
    }
    if Landed(plan, s, d, k) {
      var i :| 0 <= i < |plan| && Lands(plan[i], s, d, k);
      assert more[i] == plan[i];
    }
    if Lands(a, s, d, k) {
      assert more[|plan|] == a;
    }
  }

  lemma PushLocalCarries(plan: seq<Action>, source: nat, range: Range, s: nat, d: nat, k: nat)
    requires OnlyCarries(plan, s, d, k) && (range.start <= k < range.start + range.len ==> source == s)
    ensures var more := Push(plan, LocalCopy, source, source, range, []);
            OnlyCarries(more, s, d, k) && (Landed(plan, s, d, k) ==> Landed(more, s, d, k)) &&
            (range.start <= k < range.start + range.len && source == d ==> Landed(more, s, d, k))
  {
    PushCarries(plan, Action(|plan|, [], LocalCopy, source, source, range), s, d, k);
  }

  lemma PushRemoteCarries(plan: seq<Action>, source: nat, destination: nat, range: Range, s: nat, d: nat, k: nat)
    requires OnlyCarries(plan, s, d, k) && (range.start <= k < range.start + range.len ==> source == s)
    ensures var more := PushRemote(plan, source, destination, range);
            OnlyCarries(more, s, d, k) && (Landed(plan, s, d, k) ==> Landed(more, s, d, k)) &&
            (range.start <= k < range.start + range.len && destination == d ==> Landed(more, s, d, k))
  {
    var t := Action(|plan|, [], Transfer, source, destination, range);
    var c := Action(|plan| + 1, [|plan|], LocalCopy, source, destination, range);
    PushCarries(plan, t, s, d, k);
    var mid := plan + [t];
    if Touches(c, d, k) {
      assert mid[|plan|] == t && |plan| in c.dependsOn;
      assert AfterTransfer(mid, c, s, d, k);
    }
    PushCarries(mid, c, s, d, k);
  }

  lemma {:induction false} BroadcastCarries(root: nat, total: nat, j: nat, d: nat, k: nat)
    requires k < total
    ensures var plan := BroadcastTo(root, total, j);
            OnlyCarries(plan, root, d, k) && (d < j || d == root ==> Landed(plan, root, d, k))
    decreases j
  {
    hide OnlyCarries, Landed;
    if j == 0 {
      assert OnlyCarries([], root, d, k) by {
        NothingCarried(root, d, k);
      }
      PushLocalCarries([], root, Range(0, total), root, d, k);
    } else {
      BroadcastCarries(root, total, j - 1, d, k);
      if j - 1 != root {
        PushRemoteCarries(BroadcastTo(root, total, j - 1), root, j - 1, Range(0, total), root, d, k);
      }
    }
  }

  lemma NothingCarried(s: nat, d: nat, k: nat)
    ensures OnlyCarries([], s, d, k)
  {
  }

  lemma {:induction false} GatherRowCarries(actions: seq<Action>, src: nat, range: Range, j: nat, s: nat, d: nat,
                                            k: nat)
    requires OnlyCarries(actions, s, d, k) && (range.start <= k < range.start + range.len ==> src == s)
    ensures var plan := GatherRow(actions, src, range, j);
            OnlyCarries(plan, s, d, k) && (Landed(actions, s, d, k) ==> Landed(plan, s, d, k)) &&
            (range.start <= k < range.start + range.len && d < j ==> Landed(plan, s, d, k))
    decreases j
  {
    hide OnlyCarries, Landed;
    if j > 0 {
      GatherRowCarries(actions, src, range, j - 1, s, d, k);
      var a := GatherRow(actions, src, range, j - 1);
      if j - 1 == src {
        PushLocalCarries(a, src, range, s, d, k);
      } else {
        PushRemoteCarries(a, src, j - 1, range, s, d, k);
      }
    }
  }

  lemma {:induction false} GatherCarries(lengths: seq<nat>, j: nat, s: nat, d: nat, k: nat)
    requires j <= |lengths| && s < |lengths| && d < |lengths| && Base(lengths, s) <= k < Base(lengths, s) + lengths[s]
    ensures var plan := GatherFrom(lengths, j);
            OnlyCarries(plan, s, d, k) && (s < j ==> Landed(plan, s, d, k))
    decreases j
  {
    hide OnlyCarries, Landed;
    if j == 0 {
      NothingCarried(s, d, k);
    } else {
      GatherCarries(lengths, j - 1, s, d, k);
      var range := Range(Base(lengths, j - 1), lengths[j - 1]);
      if j - 1 < s {
        BaseMonotone(lengths, j, s);
      } else if s < j - 1 {
        BaseMonotone(lengths, s + 1, j - 1);
      }
      GatherRowCarries(GatherFrom(lengths, j - 1), j - 1, range, |lengths|, s, d, k);
    }
  }

  /** Under any order that respects the dependencies, every rank ends a broadcast with the root's tensor. */
  lemma BroadcastAnyOrder<E>(job: Job<E>, add: (E, E) -> E, c: Cell<E>, order: seq<Action>, d: nat, k: nat)
    requires var r := job.request; r.ranks > 0 && Invalid(r).None? && r.kind.Broadcast? && d < r.ranks && k < TotalOf(r)
    requires Extends(ActionsOf(job.request), order)
    ensures RunCell(job, add, c, order, d, k).out == Given(job, job.request.kind.root, k)
  {
    hide RunCell, Extends;
    var r := job.request;
    BroadcastCarries(r.kind.root, TotalOf(r), r.ranks, d, k);
    CarriedAnyOrder(job, add, c, ActionsOf(r), order, r.kind.root, d, k);
  }

  /** ... and every rank ends an all-gather with the concatenation of the contributions. */
  lemma GatherAnyOrder<E>(job: Job<E>, add: (E, E) -> E, c: Cell<E>, order: seq<Action>, s: nat, d: nat, i: nat)
    requires var r := job.request;
             r.ranks > 0 && Invalid(r).None? && r.kind.AllGather? && d < r.ranks && s < r.ranks && i < r.lengths[s]
    requires Extends(ActionsOf(job.request), order) && |job.inputs| == job.request.ranks
    requires |job.inputs[s]| == job.request.lengths[s]
    ensures RunCell(job, add, c, order, d, Base(job.request.lengths, s) + i).out == job.inputs[s][i]
  {
    hide RunCell, Extends;
    var r := job.request;
    var k := Base(r.lengths, s) + i;
    GatherCarries(r.lengths, r.ranks, s, d, k);
    CarriedAnyOrder(job, add, c, ActionsOf(r), order, s, d, k);
  }

  // Reductions

  /** Rank `d`'s own contribution plus those of the other ranks below `j`, in group order. */
  function OwnFirst<E>(job: Job<E>, add: (E, E) -> E, d: nat, j: nat, k: nat): E {
    if j == 0 then Given(job, d, k)
    else if j - 1 == d then OwnFirst(job, add, d, j - 1, k)
    else add(OwnFirst(job, add, d, j - 1, k), Given(job, j - 1, k))
  }

  /** The contributions of ranks 0 to `j - 1` added up in group order. */
  function InOrder<E>(job: Job<E>, add: (E, E) -> E, j: nat, k: nat): E
    requires j > 0
  {
    if j == 1 then Given(job, 0, k) else add(InOrder(job, add, j - 1, k), Given(job, j - 1, k))
  }

  /** A destination's row of actions rebuilds the element from scratch, whatever the workspace held before. */
  lemma {:induction false} ReduceRowCell<E>(job: Job<E>, add: (E, E) -> E, c: Cell<E>, actions: seq<Action>, dst: nat,
                                            range: Range, j: nat, k: nat)
    requires range.start <= k < range.start + range.len
    ensures RunCell(job, add, c, ReduceRow(actions, dst, range, j), dst, k).out == OwnFirst(job, add, dst, j, k)
    decreases j
  {
    hide Given, RunCell;
    if j == 0 {
      RunPush(job, add, c, actions, Action(|actions|, [], LocalCopy, dst, dst, range), dst, k);
    } else {
      var a := ReduceRow(actions, dst, range, j - 1);
      ReduceRowCell(job, add, c, actions, dst, range, j - 1, k);
      if j - 1 != dst {
        var t := Action(|a|, [], Transfer, j - 1, dst, range);
        RunPush(job, add, c, a, t, dst, k);
        RunPush(job, add, c, a + [t], Action(|a| + 1, [|a| - 1, |a|], ReduceSum, j - 1, dst, range), dst, k);
      }
    }
  }

  lemma {:induction false} ReduceRowElsewhere<E>(job: Job<E>, add: (E, E) -> E, c: Cell<E>, actions: seq<Action>,
                                                 dst: nat,
                                                 range: Range, j: nat, d: nat, k: nat)
    requires d != dst
    ensures RunCell(job, add, c, ReduceRow(actions, dst, range, j), d, k) == RunCell(job, add, c, actions, d, k)
    decreases j
  {
    hide Given, RunCell;
    if j == 0 {
      RunPush(job, add, c, actions, Action(|actions|, [], LocalCopy, dst, dst, range), d, k);
    } else {
      var a := ReduceRow(actions, dst, range, j - 1);
      ReduceRowElsewhere(job, add, c, actions, dst, range, j - 1, d, k);
      if j - 1 != dst {
        var t := Action(|a|, [], Transfer, j - 1, dst, range);
        RunPush(job, add, c, a, t, d, k);
        RunPush(job, add, c, a + [t], Action(|a| + 1, [|a| - 1, |a|], ReduceSum, j - 1, dst, range), d, k);
      }
    }
  }

  /** Running a reduction plan leaves every rank the own-first fold over its range. */
  lemma {:induction false} ReduceCell<E>(job: Job<E>, add: (E, E) -> E, c: Cell<E>, n: nat, ranges: seq<Range>, j: nat,
                                         d: nat, k: nat)
    requires d < j <= |ranges| && ranges[d].start <= k < ranges[d].start + ranges[d].len
    ensures RunCell(job, add, c, ReduceTo(n, ranges, j), d, k).out == OwnFirst(job, add, d, n, k)
    decreases j
  {
    hide Given, RunCell, OwnFirst, ReduceRow;
    if d == j - 1 {
      ReduceRowCell(job, add, c, ReduceTo(n, ranges, j - 1), d, ranges[d], n, k);
    } else {
      ReduceCell(job, add, c, n, ranges, j - 1, d, k);
      ReduceRowElsewhere(job, add, c, ReduceTo(n, ranges, j - 1), j - 1, ranges[j - 1], n, d, k);
    }
  }

  ghost predicate Commutative<E(!new)>(add: (E, E) -> E) {
    forall x, y :: add(x, y) == add(y, x)
  }

  ghost predicate Associative<E(!new)>(add: (E, E) -> E) {
    forall x, y, z :: add(add(x, y), z) == add(x, add(y, z))
  }

  /** With a commutative, associative addition the own-first order does not matter. */
  lemma {:induction false} OwnFirstIsInOrder<E(!new)>(job: Job<E>, add: (E, E) -> E, d: nat, j: nat, k: nat)
    requires Commutative(add) && Associative(add) && j > 0
    ensures OwnFirst(job, add, d, j, k) ==
            if d < j then InOrder(job, add, j, k) else add(InOrder(job, add, j, k), Given(job, d, k))
    decreases j
  {
    hide Given;
    if j > 1 {
      OwnFirstIsInOrder(job, add, d, j - 1, k);
    }
  }
}
