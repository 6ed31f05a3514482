/** The collective planner and its in-memory executor, step by step, and what they deliver. */
module Executor {
  import opened Wrappers
  import opened Collective
  import opened Delivery
  import opened Layout

  // The planner

  method PlanBroadcast(root: nat, total: nat, n: nat) returns (actions: seq<Action>)
    ensures actions == BroadcastTo(root, total, n)
  {
    actions := Push([], LocalCopy, root, root, Range(0, total), []);
    for dst := 0 to n
      invariant actions == BroadcastTo(root, total, dst)
    {
      if dst != root {
        var t := |actions|;
        actions := Push(actions, Transfer, root, dst, Range(0, total), []);
        actions := Push(actions, LocalCopy, root, dst, Range(0, total), [t]);
      }
    }
  }

  method PlanGather(lengths: seq<nat>) returns (actions: seq<Action>)
    ensures actions == GatherFrom(lengths, |lengths|)
  {
    actions := [];
    var offset := 0;
    for src := 0 to |lengths|
      invariant actions == GatherFrom(lengths, src) && offset == Base(lengths, src)
    {
      var range := Range(offset, lengths[src]);
      offset := offset + range.len;
      ghost var before := actions;
      for dst := 0 to |lengths|
        invariant actions == GatherRow(before, src, range, dst)
      {
        if src == dst {
          actions := Push(actions, LocalCopy, src, dst, range, []);
        } else {
          var t := |actions|;
          actions := Push(actions, Transfer, src, dst, range, []);
          actions := Push(actions, LocalCopy, src, dst, range, [t]);
        }
      }
    }
  }

  method PlanReduce(ranges: seq<Range>) returns (actions: seq<Action>)
    ensures actions == ReduceTo(|ranges|, ranges, |ranges|)
  {
    actions := [];
    for dst := 0 to |ranges|
      invariant actions == ReduceTo(|ranges|, ranges, dst)
    {
      var range := ranges[dst];
      ghost var before := actions;
      var last: nat := |actions|;
      actions := Push(actions, LocalCopy, dst, dst, range, []);
      for src := 0 to |ranges|
        invariant actions == ReduceRow(before, dst, range, src) && last == |actions| - 1
      {
        if src != dst {
          var t := |actions|;
          actions := Push(actions, Transfer, src, dst, range, []);
          actions := Push(actions, ReduceSum, src, dst, range, [last, t]);
          last := t + 1;
        }
      }
    }
  }

  method PlanChunks(count: nat, n: nat) returns (chunks: seq<Range>)
    requires n > 0
    ensures chunks == Chunks(count, n)
    ensures |chunks| == n && chunks[0].start == 0 && chunks[n - 1].start + chunks[n - 1].len == count
    ensures forall i :: 0 <= i < n - 1 ==> chunks[i + 1].start == chunks[i].start + chunks[i].len
    ensures forall i, j :: 0 <= i <= j < n ==> chunks[j].len <= chunks[i].len <= chunks[j].len + 1
  {
    var q, rem := count / n, count % n;
    chunks := [];
    for i := 0 to n
      invariant |chunks| == i && forall j :: 0 <= j < i ==> chunks[j] == Chunk(count, n, j)
    {
      var range := Range(i * q + (if i < rem then i else rem), q + if i < rem then 1 else 0);
      assert range == Chunk(count, n, i);
      hide Chunk;
      chunks := chunks + [range];
    }
    hide Chunk;
    assert chunks == Chunks(count, n);
    ChunksCover(count, n);
  }

  /** The checks made before anything is planned, in order. */
  method Validate(r: Request) returns (refusal: Option<PlanError>)
    ensures refusal == if Invalid(r) == Some(CountOverflow) then None else Invalid(r)
  {
    if |r.lengths| != r.ranks {
      return Some(LengthCount);
    }
    if !r.kind.AllGather? {
      var i := 1;
      while i < |r.lengths|
        invariant forall j :: 0 < j < i && j < |r.lengths| ==> r.lengths[j - 1] == r.lengths[j]
      {
        if r.lengths[i - 1] != r.lengths[i] {
          return Some(UnequalLengths);
        }
        i := i + 1;
      }
    }
    if r.kind.Broadcast? && r.kind.root >= r.ranks {
      return Some(RootOutside);
    }
    return None;
  }

  method CheckedTotal(lengths: seq<nat>) returns (total: Option<nat>)
    ensures total == if Base(lengths, |lengths|) <= Shapes.COUNT_LIMIT then Some(Base(lengths, |lengths|)) else None
  {
    var sum := 0;
    for i := 0 to |lengths|
      invariant sum == Base(lengths, i) && sum <= Shapes.COUNT_LIMIT
    {
      BaseMonotone(lengths, i + 1, |lengths|);
      if sum + lengths[i] > Shapes.COUNT_LIMIT {
        return None;
      }
      sum := sum + lengths[i];
    }
    return Some(sum);
  }

  lemma MakesPlan(r: Request)
    requires r.ranks > 0
    ensures Canonical(r).Ok? <==> Plannable(r)
    ensures Canonical(r).Ok? ==> Shared(r, Canonical(r).value) && LaidOut(r, Canonical(r).value)
  {
    hide Shared, LaidOut, OutputLengths, Chunks, ActionsOf;
    InvalidIs(r);
    if Canonical(r).Ok? {
      PlanShared(r, Canonical(r).value);
      PlanLaidOut(r, Canonical(r).value);
    }
  }

  /** The planner builds exactly the canonical plan of its request. */
  method MakePlan(r: Request) returns (plan: Result<Plan, PlanError>)
    requires r.ranks > 0
    ensures plan == Canonical(r)
    ensures plan.Ok? <==> Plannable(r)
    ensures plan.Ok? ==> Shared(r, plan.value) && LaidOut(r, plan.value)
  {
    MakesPlan(r);
    var refusal := Validate(r);
    if refusal.Some? {
      return Err(refusal.value);
    }
    var n := r.ranks;
    var total: nat := r.lengths[0];
    if r.kind.AllGather? {
      var sum := CheckedTotal(r.lengths);
      if sum.None? {
        return Err(CountOverflow);
      }
      total := sum.value;
    }
    var chunks := PlanChunks(total, n);
    var lens := if r.kind.ReduceScatter? then Lengths(chunks) else seq(n, _ => total);
    var actions: seq<Action>;
    match r.kind {
      case Broadcast(root) => actions := PlanBroadcast(root, total, n);
      case AllGather => actions := PlanGather(r.lengths);
      case ReduceScatter => actions := PlanReduce(chunks);
      case AllReduce =>
        var whole := seq(n, _ => Range(0, total));
        assert whole == Whole(total, n);
        actions := PlanReduce(whole);
    }
    assert lens == OutputLengths(r);
    return Ok(Plan(r, lens, chunks, actions));
  }

  // The executor

  /** The workspace holds, cell by cell, what running the actions from `from` gives. */
  ghost predicate Ran<E>(job: Job<E>, add: (E, E) -> E, from: Cell<E>, actions: seq<Action>, width: nat,
                         output: seq<seq<E>>, inbox: seq<seq<E>>) {
    |output| == |inbox| == job.request.ranks &&
    forall d: nat :: d < |output| ==> RanRow(job, add, from, actions, d, width, output[d], inbox[d])
  }

  ghost predicate RanRow<E>(job: Job<E>, add: (E, E) -> E, from: Cell<E>, actions: seq<Action>, d: nat, width: nat,
                            out: seq<E>, inbox: seq<E>) {
    |out| == |inbox| == width &&
    forall k: nat :: k < width ==> Cell(out[k], inbox[k]) == RunCell(job, add, from, actions, d, k)
  }

  /** One action applied to its destination's row, element by element. */
  method ApplyRow<E>(job: Job<E>, add: (E, E) -> E, a: Action, out: seq<E>, inbox: seq<E>)
    returns (out': seq<E>, inbox': seq<E>)
    requires |out| == |inbox| && a.range.start + a.range.len <= |out|
    requires a.source < |job.inputs|
    requires var base := Shift(job.request, a.source);
             base <= a.range.start && a.range.start - base + a.range.len <= |job.inputs[a.source]|
    ensures |out'| == |inbox'| == |out|
    ensures forall k: nat :: k < |out| ==>
              Cell(out'[k], inbox'[k]) == StepCell(job, add, Cell(out[k], inbox[k]), a, a.destination, k)
  {
    out', inbox' := out, inbox;
    var start := a.range.start;
    var base := start - Shift(job.request, a.source);
    for j := 0 to a.range.len
      invariant |out'| == |inbox'| == |out|
      invariant forall k: nat :: k < |out| ==>
                  Cell(out'[k], inbox'[k]) ==
                  if start <= k < start + j then StepCell(job, add, Cell(out[k], inbox[k]), a, a.destination, k)
                  else Cell(out[k], inbox[k])
    {
      match a.op {
        case Transfer => inbox' := inbox'[start + j := job.inputs[a.source][base + j]];
        case LocalCopy =>
          var v := if a.source == a.destination then job.inputs[a.source][base + j] else inbox'[start + j];
          out' := out'[start + j := v];
        case ReduceSum => out' := out'[start + j := add(out'[start + j], inbox'[start + j])];
      }
    }
  }

  lemma RanStep<E>(job: Job<E>, add: (E, E) -> E, from: Cell<E>, actions: seq<Action>, a: Action, width: nat,
                   output: seq<seq<E>>, inbox: seq<seq<E>>, out': seq<E>, inbox': seq<E>)
    requires Ran(job, add, from, actions, width, output, inbox) && a.destination < job.request.ranks
    requires |out'| == |inbox'| == width
    requires forall k: nat :: k < width ==>
               Cell(out'[k], inbox'[k]) ==
               StepCell(job, add, Cell(output[a.destination][k], inbox[a.destination][k]), a, a.destination, k)
    ensures Ran(job, add, from, actions + [a], width, output[a.destination := out'], inbox[a.destination := inbox'])
  {
    hide RunCell, StepCell;
    var d0 := a.destination;
    var outputs, inboxes := output[d0 := out'], inbox[d0 := inbox'];
    assert RanRow(job, add, from, actions, d0, width, output[d0], inbox[d0]);
    forall d: nat | d < |outputs|
      ensures RanRow(job, add, from, actions + [a], d, width, outputs[d], inboxes[d])
    {
      assert RanRow(job, add, from, actions, d, width, output[d], inbox[d]);
      forall k: nat | k < width
        ensures Cell(outputs[d][k], inboxes[d][k]) == RunCell(job, add, from, actions + [a], d, k)
      {
        RunPush(job, add, from, actions, a, d, k);
        if d != d0 {
          Untouched(job, add, RunCell(job, add, from, actions, d, k), a, d, k);
        }
      }
    }
  }

  lemma Untouched<E>(job: Job<E>, add: (E, E) -> E, c: Cell<E>, a: Action, d: nat, k: nat)
    requires a.destination != d
    ensures StepCell(job, add, c, a, d, k) == c
  {
  }

  /** Where rank `d`'s output begins in its workspace. */
  function OutBase(plan: Plan, d: nat): nat {
    if plan.request.kind.ReduceScatter? && d < |plan.chunks| then plan.chunks[d].start else 0
  }

  /** The outputs of a plan: for every rank, its slice of the workspace after all actions. */
  ghost predicate IsOutcome<E>(plan: Plan, job: Job<E>, add: (E, E) -> E, outputs: seq<seq<E>>) {
    |outputs| == plan.request.ranks == |plan.outputLengths| &&
    forall d: nat :: d < |outputs| ==> IsRowOutcome(plan, job, add, outputs[d], d)
  }

  ghost predicate IsRowOutcome<E>(plan: Plan, job: Job<E>, add: (E, E) -> E, row: seq<E>, d: nat) {
    d < |plan.outputLengths| && |row| == plan.outputLengths[d] &&
    forall k: nat :: k < |row| ==>
      row[k] == RunCell(job, add, Cell(job.zero, job.zero), plan.actions, d, OutBase(plan, d) + k).out
  }

  function MaxOf(lengths: seq<nat>): (m: nat)
    ensures forall i :: 0 <= i < |lengths| ==> lengths[i] <= m
  {
    if |lengths| == 0 then 0
    else
      var n := |lengths| - 1;
      var rest := MaxOf(lengths[..n]);
      assert forall i :: 0 <= i < n ==> lengths[..n][i] == lengths[i];
      if lengths[n] > rest then lengths[n] else rest
  }

  /** The inputs fit the request. */
  ghost predicate Supplied<E>(r: Request, inputs: seq<seq<E>>) {
    |inputs| == r.ranks == |r.lengths| && forall i :: 0 <= i < |inputs| ==> |inputs[i]| == r.lengths[i]
  }

  /** A placed action of a supplied request reads and writes within bounds. */
  lemma PlacedBounds<E>(job: Job<E>, a: Action, i: nat, width: nat)
    requires var r := job.request; r.ranks > 0 && Invalid(r).None? && Supplied(r, job.inputs) && Placed(r, a, i)
    requires TotalOf(job.request) <= width
    ensures var base := Shift(job.request, a.source);
            a.range.start + a.range.len <= width && base <= a.range.start &&
            a.range.start - base + a.range.len <= |job.inputs[a.source]|
  {
  }

  lemma WorkspaceWidth(r: Request)
    requires r.ranks > 0 && Invalid(r).None?
    ensures var a, b := MaxOf(OutputLengths(r)), MaxOf(r.lengths); TotalOf(r) <= if a > b then a else b
  {
    if r.kind.ReduceScatter? {
      assert r.lengths[0] <= MaxOf(r.lengths);
    } else {
      assert OutputLengths(r)[0] == TotalOf(r);
    }
  }

  /** All actions run from a workspace of fillers, in plan order; on a canonical plan no check can fail. */
  method RunActions<E>(plan: Plan, job: Job<E>, add: (E, E) -> E, width: nat)
    returns (r: Result<seq<seq<E>>, PlanError>)
    requires job.request == plan.request && plan.request.ranks > 0 && Canonical(plan.request) == Ok(plan)
    requires Supplied(plan.request, job.inputs) && TotalOf(plan.request) <= width
    ensures r.Ok? && exists inbox :: Ran(job, add, Cell(job.zero, job.zero), plan.actions, width, r.value, inbox)
  {
    hide RunCell, StepCell, AllPlaced, Placed, ActionsOf;
    var n := plan.request.ranks;
    var output := seq(n, _ => seq(width, _ => job.zero));
    var inbox := seq(n, _ => seq(width, _ => job.zero));
    var done := seq(|plan.actions|, _ => false);
    PlanPlaced(plan.request);
    RanNothing(job, add, width, output, inbox);
    for i := 0 to |plan.actions|
      invariant Ran(job, add, Cell(job.zero, job.zero), plan.actions[..i], width, output, inbox)
      invariant |done| == |plan.actions| && forall j :: 0 <= j < i ==> done[j]
    {
      var a := plan.actions[i];
      PlacedFacts(plan.request, plan.actions, i);
      if a.id >= |done| || exists e :: e in a.dependsOn && (e >= a.id || !done[e]) {
        return Err(BadDependency);
      }
      if a.source >= n || a.destination >= n {
        return Err(OutsideGroup);
      }
      PlacedBounds(job, a, i, width);
      if a.range.start < Shift(plan.request, a.source) {
        return Err(BadRange);
      }
      assert RanRow(job, add, Cell(job.zero, job.zero), plan.actions[..i], a.destination, width, output[a.destination],
                    inbox[a.destination]);
      var out', inbox' := ApplyRow(job, add, a, output[a.destination], inbox[a.destination]);
      RanStep(job, add, Cell(job.zero, job.zero), plan.actions[..i], a, width, output, inbox, out', inbox');
      assert plan.actions[..i + 1] == plan.actions[..i] + [a];
      output, inbox := output[a.destination := out'], inbox[a.destination := inbox'];
      done := done[a.id := true];
    }
    assert plan.actions[..|plan.actions|] == plan.actions;
    return Ok(output);
  }

  lemma PlacedFacts(r: Request, actions: seq<Action>, i: nat)
    requires r.ranks > 0 && |r.lengths| == r.ranks && AllPlaced(r, actions) && i < |actions|
    ensures Placed(r, actions[i], i)
    ensures var a := actions[i];
            a.id == i && (forall e :: e in a.dependsOn ==> e < i) && a.source < r.ranks && a.destination < r.ranks
  {
  }

  lemma RanNothing<E>(job: Job<E>, add: (E, E) -> E, width: nat, output: seq<seq<E>>, inbox: seq<seq<E>>)
    requires |output| == |inbox| == job.request.ranks
    requires forall d: nat :: d < |output| ==> |output[d]| == |inbox[d]| == width
    requires forall d: nat, k: nat :: d < |output| && k < width ==> output[d][k] == inbox[d][k] == job.zero
    ensures Ran(job, add, Cell(job.zero, job.zero), [], width, output, inbox)
  {
  }

  /** Executing a plan: refused unless the plan is canonical and the inputs fit, and never failing afterwards. */
  method Execute<E>(plan: Plan, inputs: seq<seq<E>>, zero: E, add: (E, E) -> E)
    returns (r: Result<seq<seq<E>>, PlanError>)
    requires plan.request.ranks > 0
    ensures r.Ok? <==> Canonical(plan.request) == Ok(plan) && Supplied(plan.request, inputs)
    ensures r.Ok? ==> IsOutcome(plan, Job(plan.request, inputs, zero), add, r.value)
    ensures r.Err? ==>
              r.error == match Canonical(plan.request)
                         case Err(e) => e
                         case Ok(p) =>
                           if p != plan then PlanMismatch
                           else if |inputs| != plan.request.ranks then InputCount
                           else InputLength
  {
    hide RunCell, ActionsOf, OutputLengths, Chunks, Chunk, Base;
    var canonical := MakePlan(plan.request);
    if canonical.Err? {
      return Err(canonical.error);
    }
    if canonical.value != plan {
      return Err(PlanMismatch);
    }
    if |inputs| != plan.request.ranks {
      return Err(InputCount);
    }
    for i := 0 to |inputs|
      invariant forall j :: 0 <= j < i ==> |inputs[j]| == plan.request.lengths[j]
    {
      if |inputs[i]| != plan.request.lengths[i] {
        return Err(InputLength);
      }
    }
    var job := Job(plan.request, inputs, zero);
    var a, b := MaxOf(plan.outputLengths), MaxOf(plan.request.lengths);
    WorkspaceWidth(plan.request);
    var width := if a > b then a else b;
    var ran := RunActions(plan, job, add, width);
    var rows := CutOutputs(plan, job, add, width, ran.value);
    return Ok(rows);
  }

  /** Each rank's share of its workspace. */
  method CutOutputs<E>(plan: Plan, ghost job: Job<E>, ghost add: (E, E) -> E, ghost width: nat, output: seq<seq<E>>)
    returns (rows: seq<seq<E>>)
    requires plan.request.ranks > 0 && Canonical(plan.request) == Ok(plan)
    requires TotalOf(plan.request) <= width && |output| == plan.request.ranks
    requires exists inbox :: Ran(job, add, Cell(job.zero, job.zero), plan.actions, width, output, inbox)
    ensures IsOutcome(plan, job, add, rows)
  {
    hide RunCell, ActionsOf, OutputLengths, Chunks, Chunk, Base;
    ghost var inbox :| Ran(job, add, Cell(job.zero, job.zero), plan.actions, width, output, inbox);
    rows := [];
    for d := 0 to plan.request.ranks
      invariant |rows| == d && forall j: nat :: j < d ==> IsRowOutcome(plan, job, add, rows[j], j)
    {
      assert RanRow(job, add, Cell(job.zero, job.zero), plan.actions, d, width, output[d], inbox[d]);
      OutputFits(plan.request, d);
      var from := OutBase(plan, d);
      rows := rows + [output[d][from..from + plan.outputLengths[d]]];
    }
  }

  lemma OutputFits(r: Request, d: nat)
    requires r.ranks > 0 && Invalid(r).None? && d < r.ranks
    ensures var plan := Canonical(r).value; OutBase(plan, d) + plan.outputLengths[d] <= TotalOf(r)
  {
    ChunksCover(TotalOf(r), r.ranks);
  }

  // What the plans deliver

  /** A supplied job over the canonical plan of its request. */
  ghost predicate Runs<E>(plan: Plan, job: Job<E>) {
    plan.request.ranks > 0 && job.request == plan.request && Canonical(plan.request) == Ok(plan) &&
    Supplied(plan.request, job.inputs)
  }

  /** All-reduce: every rank gets the fold that starts from its own input and goes through the group in order. */
  lemma AllReduceOutcome<E>(plan: Plan, job: Job<E>, add: (E, E) -> E, outputs: seq<seq<E>>, d: nat, k: nat)
    requires Runs(plan, job) && plan.request.kind.AllReduce? && IsOutcome(plan, job, add, outputs)
    requires d < plan.request.ranks && k < TotalOf(plan.request)
    ensures |outputs[d]| == TotalOf(plan.request) && outputs[d][k] == OwnFirst(job, add, d, plan.request.ranks, k)
  {
    hide RunCell, OwnFirst;
    var n := plan.request.ranks;
    assert IsRowOutcome(plan, job, add, outputs[d], d);
    ReduceCell(job, add, Cell(job.zero, job.zero), n, Whole(TotalOf(plan.request), n), n, d, k);
  }

  /** With a commutative, associative addition all ranks of an all-reduce hold the same elementwise sum. */
  lemma AllReduceAgrees<E(!new)>(plan: Plan, job: Job<E>, add: (E, E) -> E, outputs: seq<seq<E>>, d: nat, k: nat)
    requires Runs(plan, job) && plan.request.kind.AllReduce? && IsOutcome(plan, job, add, outputs)
    requires d < plan.request.ranks && k < TotalOf(plan.request) && Commutative(add) && Associative(add)
    ensures |outputs[d]| == TotalOf(plan.request) && outputs[d][k] == InOrder(job, add, plan.request.ranks, k)
  {
    hide RunCell, OwnFirst, InOrder, Commutative, Associative;
    AllReduceOutcome(plan, job, add, outputs, d, k);
    OwnFirstIsInOrder(job, add, d, plan.request.ranks, k);
  }

  /** Reduce-scatter: rank `d` gets its own-first fold over its own chunk. */
  lemma ReduceScatterOutcome<E>(plan: Plan, job: Job<E>, add: (E, E) -> E, outputs: seq<seq<E>>, d: nat, k: nat)
    requires Runs(plan, job) && plan.request.kind.ReduceScatter? && IsOutcome(plan, job, add, outputs)
    requires d < plan.request.ranks && k < plan.chunks[d].len
    ensures |outputs[d]| == plan.chunks[d].len
    ensures outputs[d][k] == OwnFirst(job, add, d, plan.request.ranks, plan.chunks[d].start + k)
  {
    hide RunCell, OwnFirst;
    var n := plan.request.ranks;
    assert IsRowOutcome(plan, job, add, outputs[d], d);
    ReduceCell(job, add, Cell(job.zero, job.zero), n, plan.chunks, n, d, plan.chunks[d].start + k);
  }

  lemma OutcomeCell<E>(plan: Plan, job: Job<E>, add: (E, E) -> E, row: seq<E>, d: nat, k: nat)
    requires IsRowOutcome(plan, job, add, row, d)
    ensures d < |plan.outputLengths| && |row| == plan.outputLengths[d]
    ensures k < |row| && !plan.request.kind.ReduceScatter? ==>
              row[k] == RunCell(job, add, Cell(job.zero, job.zero), plan.actions, d, k).out
  {
    hide RunCell;
  }

  /** All-gather: every rank gets every contribution at its place in the concatenation. */
  lemma GatherOutcome<E>(plan: Plan, job: Job<E>, add: (E, E) -> E, outputs: seq<seq<E>>, s: nat, d: nat, i: nat)
    requires Runs(plan, job) && plan.request.kind.AllGather? && IsOutcome(plan, job, add, outputs)
    requires d < plan.request.ranks && s < plan.request.ranks && i < plan.request.lengths[s]
    ensures Base(plan.request.lengths, s) + i < |outputs[d]| == TotalOf(plan.request)
    ensures outputs[d][Base(plan.request.lengths, s) + i] == job.inputs[s][i]
  {
    hide RunCell, Extends, ActionsOf, Given, AllPlaced, IsRowOutcome, OutBase;
    var r := plan.request;
    assert IsRowOutcome(plan, job, add, outputs[d], d);
    BaseMonotone(r.lengths, s + 1, r.ranks);
    OutcomeCell(plan, job, add, outputs[d], d, Base(r.lengths, s) + i);
    PlanPlaced(r);
    PlanExtendsItself(r, plan.actions);
    GatherAnyOrder(job, add, Cell(job.zero, job.zero), plan.actions, s, d, i);
  }

  /** Broadcast: every rank gets the root's tensor. */
  lemma BroadcastOutcome<E>(plan: Plan, job: Job<E>, add: (E, E) -> E, outputs: seq<seq<E>>, d: nat)
    requires Runs(plan, job) && plan.request.kind.Broadcast? && IsOutcome(plan, job, add, outputs)
    requires d < plan.request.ranks
    ensures outputs[d] == job.inputs[plan.request.kind.root]
  {
    hide RunCell, Extends, ActionsOf;
    var r := plan.request;
    var root := r.kind.root;
    assert IsRowOutcome(plan, job, add, outputs[d], d);
    SameLengths(r);
    PlanPlaced(r);
    PlanExtendsItself(r, plan.actions);
    forall k: nat | k < |outputs[d]|
      ensures outputs[d][k] == job.inputs[root][k]
    {
      BroadcastAnyOrder(job, add, Cell(job.zero, job.zero), plan.actions, d, k);
    }
  }

  /** The chunk a position falls into. */
  lemma {:induction false} ChunkOf(count: nat, n: nat, k: nat, j: nat) returns (s: nat)
    requires n > 0 && k < count && j <= n && Base(Lengths(Chunks(count, n)), j) <= k
    ensures s < n && Chunks(count, n)[s].start <= k < Chunks(count, n)[s].start + Chunks(count, n)[s].len
    decreases n - j
  {
    ChunkStart(count, n, j);
    assert j < n;
    if k < Chunks(count, n)[j].start + Chunks(count, n)[j].len {
      s := j;
    } else {
      s := ChunkOf(count, n, k, j + 1);
    }
  }

  /**
   * Reduce-scatter followed by all-gather of its uneven outputs is all-reduce, for any commutative, associative
   * addition.
   */
  lemma ScatterThenGather<E(!new)>(scatter: Plan, gather: Plan, reduce: Plan, job: Job<E>, add: (E, E) -> E,
                                   shards: seq<seq<E>>, gathered: seq<seq<E>>, reduced: seq<seq<E>>, d: nat)
    requires Commutative(add) && Associative(add) && d < scatter.request.ranks
    requires Runs(scatter, job) && scatter.request.kind.ReduceScatter? && IsOutcome(scatter, job, add, shards)
    requires reduce.request == scatter.request.(kind := AllReduce)
    requires gather.request == Request(scatter.request.ranks, AllGather, scatter.outputLengths)
    requires Runs(reduce, job.(request := reduce.request))
    requires IsOutcome(reduce, job.(request := reduce.request), add, reduced)
    requires Runs(gather, Job(gather.request, shards, job.zero))
    requires IsOutcome(gather, Job(gather.request, shards, job.zero), add, gathered)
    ensures gathered[d] == reduced[d]
  {
    hide RunCell, OwnFirst, InOrder, Commutative, Associative, ActionsOf, IsRowOutcome, Supplied;
    var n, count := scatter.request.ranks, TotalOf(scatter.request);
    ChunkStart(count, n, n);
    assert IsRowOutcome(gather, Job(gather.request, shards, job.zero), add, gathered[d], d);
    assert IsRowOutcome(reduce, job.(request := reduce.request), add, reduced[d], d);
    RowLength(gather, Job(gather.request, shards, job.zero), add, gathered[d], d);
    RowLength(reduce, job.(request := reduce.request), add, reduced[d], d);
    forall k: nat | k < count
      ensures gathered[d][k] == reduced[d][k]
    {
      GatheredElement(scatter, gather, job, add, shards, gathered, d, k);
      AllReduceAgrees(reduce, job.(request := reduce.request), add, reduced, d, k);
      SameContributions(job, job.(request := reduce.request), add, n, k);
    }
  }

  lemma RowLength<E>(plan: Plan, job: Job<E>, add: (E, E) -> E, row: seq<E>, d: nat)
    requires IsRowOutcome(plan, job, add, row, d)
    ensures d < |plan.outputLengths| && |row| == plan.outputLengths[d]
  {
  }

  lemma {:induction false} SameContributions<E>(job: Job<E>, other: Job<E>, add: (E, E) -> E, n: nat, k: nat)
    requires n > 0 && !job.request.kind.AllGather? && other == job.(request := job.request.(kind := AllReduce))
    ensures InOrder(job, add, n, k) == InOrder(other, add, n, k)
  {
    if n > 1 {
      SameContributions(job, other, add, n - 1, k);
    }
  }

  /** An element of the gathered shards is the sum of all contributions at its position. */
  lemma GatheredElement<E(!new)>(scatter: Plan, gather: Plan, job: Job<E>, add: (E, E) -> E, shards: seq<seq<E>>,
                                 gathered: seq<seq<E>>, d: nat, k: nat)
    requires Commutative(add) && Associative(add) && d < scatter.request.ranks
    requires Runs(scatter, job) && scatter.request.kind.ReduceScatter? && IsOutcome(scatter, job, add, shards)
    requires k < TotalOf(scatter.request)
    requires gather.request == Request(scatter.request.ranks, AllGather, scatter.outputLengths)
    requires Runs(gather, Job(gather.request, shards, job.zero))
    requires IsOutcome(gather, Job(gather.request, shards, job.zero), add, gathered)
    ensures k < |gathered[d]| && gathered[d][k] == InOrder(job, add, scatter.request.ranks, k)
  {
    hide RunCell, OwnFirst, InOrder, Commutative, Associative, ActionsOf, IsRowOutcome, Supplied;
    var n, count := scatter.request.ranks, TotalOf(scatter.request);
    var s := ChunkOf(count, n, k, 0);
    ChunkStart(count, n, s);
    var i := k - scatter.chunks[s].start;
    GatherOutcome(gather, Job(gather.request, shards, job.zero), add, gathered, s, d, i);
    ReduceScatterOutcome(scatter, job, add, shards, s, i);
    OwnFirstIsInOrder(job, add, s, n, k);
  }

  /** No output element depends on what the workspace or an inbox held before. */
  lemma NoStaleReads<E>(plan: Plan, job: Job<E>, add: (E, E) -> E, c: Cell<E>, e: Cell<E>, d: nat, k: nat)
    requires Runs(plan, job) && d < plan.request.ranks && k < plan.outputLengths[d]
    ensures RunCell(job, add, c, plan.actions, d, OutBase(plan, d) + k).out ==
            RunCell(job, add, e, plan.actions, d, OutBase(plan, d) + k).out
  {
    hide RunCell, OwnFirst, Extends;
    var r := plan.request;
    var n, total := r.ranks, TotalOf(r);
    PlanPlaced(r);
    PlanExtendsItself(r, plan.actions);
    match r.kind
    case Broadcast(_) =>
      BroadcastAnyOrder(job, add, c, plan.actions, d, k);
      BroadcastAnyOrder(job, add, e, plan.actions, d, k);
    case AllGather =>
      var s := SourceOf(r.lengths, k, n);
      GatherAnyOrder(job, add, c, plan.actions, s, d, k - Base(r.lengths, s));
      GatherAnyOrder(job, add, e, plan.actions, s, d, k - Base(r.lengths, s));
    case ReduceScatter =>
      ReduceCell(job, add, c, n, plan.chunks, n, d, plan.chunks[d].start + k);
      ReduceCell(job, add, e, n, plan.chunks, n, d, plan.chunks[d].start + k);
    case AllReduce =>
      ReduceCell(job, add, c, n, Whole(total, n), n, d, k);
      ReduceCell(job, add, e, n, Whole(total, n), n, d, k);
  }

  lemma {:induction false} SourceOf(lengths: seq<nat>, k: nat, j: nat) returns (s: nat)
    requires j <= |lengths| && k < Base(lengths, j)
    ensures s < j && Base(lengths, s) <= k < Base(lengths, s) + lengths[s]
    decreases j
  {
    if k < Base(lengths, j - 1) {
      s := SourceOf(lengths, k, j - 1);
    } else {
      s := j - 1;
    }
  }

  // Reductions need more than the dependencies

  function Plus(x: int, y: int): int {
    x + y
  }

  lemma {:induction false} RowGrows(actions: seq<Action>, dst: nat, range: Range, j: nat)
    ensures var r := ReduceRow(actions, dst, range, j);
            actions <= r && forall i :: |actions| <= i < |r| ==> r[i].destination == dst
  {
    if j > 0 {
      RowGrows(actions, dst, range, j - 1);
    }
  }

  lemma {:induction false} TailElsewhere<E>(job: Job<E>, add: (E, E) -> E, c: Cell<E>, actions: seq<Action>, m: nat,
                                            d: nat, k: nat)
    requires m <= |actions| && forall i :: m <= i < |actions| ==> actions[i].destination != d
    ensures RunCell(job, add, c, actions, d, k) == RunCell(job, add, c, actions[..m], d, k)
  {
    var n := |actions| - 1;
    if m == |actions| {
      assert actions[..m] == actions;
    } else {
      TailElsewhere(job, add, c, actions[..n], m, d, k);
      assert actions[..n][..m] == actions[..m];
    }
  }

  /** The first destination's row of the three-rank all-reduce of single elements. */
  lemma SmallPlan(plan: seq<Action>)
    requires plan == ActionsOf(Request(3, AllReduce, [1, 1, 1]))
    ensures 5 <= |plan| && forall i :: 5 <= i < |plan| ==> plan[i].destination != 0
    ensures var w := Range(0, 1);
            plan[0] == Action(0, [], LocalCopy, 0, 0, w) && plan[1] == Action(1, [], Transfer, 1, 0, w) &&
            plan[2] == Action(2, [0, 1], ReduceSum, 1, 0, w) && plan[3] == Action(3, [], Transfer, 2, 0, w) &&
            plan[4] == Action(4, [2, 3], ReduceSum, 2, 0, w)
  {
    var w := Range(0, 1);
    var a := ReduceRow([], 0, w, 3);
    var b := ReduceRow(a, 1, w, 3);
    var c0 := Push([], LocalCopy, 0, 0, w, []);
    assert ReduceRow([], 0, w, 1) == c0;
    var c1 := Push(Push(c0, Transfer, 1, 0, w, []), ReduceSum, 1, 0, w, [0, 1]);
    assert ReduceRow([], 0, w, 2) == c1;
    assert a == Push(Push(c1, Transfer, 2, 0, w, []), ReduceSum, 2, 0, w, [2, 3]);
    RowGrows(a, 1, w, 3);
    RowGrows(b, 2, w, 3);
    var whole := Whole(1, 3);
    assert ReduceTo(3, whole, 1) == a;
    assert ReduceTo(3, whole, 2) == b;
    assert plan == ReduceRow(b, 2, w, 3);
  }

  /** Exchanging the second addition's transfer with the first addition respects all dependencies. */
  lemma SwapExtends(plan: seq<Action>, order: seq<Action>)
    requires Extends(plan, plan) && 5 <= |plan| && order == plan[2 := plan[3]][3 := plan[2]]
    requires plan[3].dependsOn == [] && plan[2].dependsOn == [0, 1]
    ensures Extends(plan, order)
  {
    hide Ready;
    forall a | a in plan
      ensures a in order
    {
      SwapKeeps(plan, order, a);
    }
    forall i | 0 <= i < |order|
      ensures order[i] in plan
    {
      assert order[i] == plan[if i == 2 then 3 else if i == 3 then 2 else i];
    }
    forall i | 0 <= i < |order|
      ensures Ready(plan, order, i)
    {
      SwapReady(plan, order, i);
    }
  }

  lemma SwapReady(plan: seq<Action>, order: seq<Action>, i: nat)
    requires Extends(plan, plan) && 5 <= |plan| && order == plan[2 := plan[3]][3 := plan[2]]
    requires plan[3].dependsOn == [] && plan[2].dependsOn == [0, 1] && i < |order|
    ensures Ready(plan, order, i)
  {
    hide Extends;
    forall e | e in order[i].dependsOn
      ensures e < |plan| && plan[e] in order[..i]
    {
      SwapRespects(plan, order, i, e);
    }
  }

  lemma SwapKeeps(plan: seq<Action>, order: seq<Action>, a: Action)
    requires 5 <= |plan| && order == plan[2 := plan[3]][3 := plan[2]] && a in plan
    ensures a in order
  {
    var i :| 0 <= i < |plan| && plan[i] == a;
    assert order[if i == 2 then 3 else if i == 3 then 2 else i] == a;
  }

  lemma SwapRespects(plan: seq<Action>, order: seq<Action>, i: nat, e: nat)
    requires Extends(plan, plan) && 5 <= |plan| && order == plan[2 := plan[3]][3 := plan[2]]
    requires plan[3].dependsOn == [] && plan[2].dependsOn == [0, 1]
    requires i < |order| && e in order[i].dependsOn
    ensures e < |plan| && plan[e] in order[..i]
  {
    if i == 3 {
      assert order[..3][0] == plan[0] && order[..3][1] == plan[1];
    } else {
      assert order[i] == plan[i] && Ready(plan, plan, i);
      var j :| 0 <= j < i && plan[..i][j] == plan[e];
      if i > 3 {
        assert order[..i][2] == plan[3] && order[..i][3] == plan[2];
      }
      if j != 2 && j != 3 {
        assert order[..i][j] == plan[j];
      }
    }
  }

  /** An order of an all-reduce plan that respects every dependency and still computes a wrong sum: the second
      transfer into an inbox is free to overtake the addition that reads the first. */
  lemma OvertakingTransferBreaksAllReduce() returns (job: Job<int>, order: seq<Action>)
    ensures job.request == Request(3, AllReduce, [1, 1, 1]) && Invalid(job.request).None?
    ensures Extends(ActionsOf(job.request), order) && |order| == |ActionsOf(job.request)|
    ensures RunCell(job, Plus, Cell(0, 0), order, 0, 0).out != RunCell(job, Plus, Cell(0, 0), ActionsOf(job.request), 0,
                                                                       0).out
  {
    var r := Request(3, AllReduce, [1, 1, 1]);
    job := Job(r, [[1], [2], [4]], 0);
    var plan := ActionsOf(r);
    SmallPlan(plan);
    PlanPlaced(r);
    PlanExtendsItself(r, plan);
    order := plan[2 := plan[3]][3 := plan[2]];
    SwapExtends(plan, order);
    SmallRuns(job, plan, order);
  }

  lemma SmallRuns(job: Job<int>, plan: seq<Action>, order: seq<Action>)
    requires job == Job(Request(3, AllReduce, [1, 1, 1]), [[1], [2], [4]], 0) && plan == ActionsOf(job.request)
    requires |plan| >= 5 && order == plan[2 := plan[3]][3 := plan[2]]
    ensures RunCell(job, Plus, Cell(0, 0), plan, 0, 0).out == 7
    ensures RunCell(job, Plus, Cell(0, 0), order, 0, 0).out == 9
  {
    hide RunCell, ActionsOf, Five;
    SmallPlan(plan);
    TailElsewhere(job, Plus, Cell(0, 0), plan, 5, 0, 0);
    TailElsewhere(job, Plus, Cell(0, 0), order, 5, 0, 0);
    FiveSteps(job, plan[0], plan[1], plan[2], plan[3], plan[4]);
    FiveSteps(job, plan[0], plan[1], plan[3], plan[2], plan[4]);
    FiveValues(job, plan[0], plan[1], plan[2], plan[3], plan[4]);
    assert plan[..5] == [plan[0], plan[1], plan[2], plan[3], plan[4]];
    assert order[..5] == [plan[0], plan[1], plan[3], plan[2], plan[4]];
  }

  function Five(job: Job<int>, a: Action, b: Action, c: Action, d: Action, e: Action): Cell<int> {
    var s1 := StepCell(job, Plus, Cell(0, 0), a, 0, 0);
    var s2 := StepCell(job, Plus, s1, b, 0, 0);
    var s3 := StepCell(job, Plus, s2, c, 0, 0);
    var s4 := StepCell(job, Plus, s3, d, 0, 0);
    StepCell(job, Plus, s4, e, 0, 0)
  }

  lemma FiveValues(job: Job<int>, a: Action, b: Action, c: Action, d: Action, e: Action)
    requires job == Job(Request(3, AllReduce, [1, 1, 1]), [[1], [2], [4]], 0)
    requires var w := Range(0, 1);
             a == Action(0, [], LocalCopy, 0, 0, w) && b == Action(1, [], Transfer, 1, 0, w) &&
             c == Action(2, [0, 1], ReduceSum, 1, 0, w) && d == Action(3, [], Transfer, 2, 0, w) &&
             e == Action(4, [2, 3], ReduceSum, 2, 0, w)
    ensures Five(job, a, b, c, d, e).out == 7
    ensures Five(job, a, b, d, c, e).out == 9
  {
    var s1 := StepCell(job, Plus, Cell(0, 0), a, 0, 0);
    var s2 := StepCell(job, Plus, s1, b, 0, 0);
    assert s1 == Cell(1, 0) && s2 == Cell(1, 2);
    assert StepCell(job, Plus, s2, c, 0, 0) == Cell(3, 2) && StepCell(job, Plus, s2, d, 0, 0) == Cell(1, 4);
  }

  lemma FiveSteps(job: Job<int>, a: Action, b: Action, c: Action, d: Action, e: Action)
    ensures RunCell(job, Plus, Cell(0, 0), [a, b, c, d, e], 0, 0) == Five(job, a, b, c, d, e)
  {
    hide StepCell, RunCell;
    var z := Cell(0, 0);
    RunPush(job, Plus, z, [], a, 0, 0);
    RunPush(job, Plus, z, [a], b, 0, 0);
    RunPush(job, Plus, z, [a, b], c, 0, 0);
    RunPush(job, Plus, z, [a, b, c], d, 0, 0);
    RunPush(job, Plus, z, [a, b, c, d], e, 0, 0);
    RunNone(job);
    assert [] + [a] == [a] && [a] + [b] == [a, b] && [a, b] + [c] == [a, b, c];
    assert [a, b, c] + [d] == [a, b, c, d] && [a, b, c, d] + [e] == [a, b, c, d, e];
  }

  lemma RunNone(job: Job<int>)
    ensures RunCell(job, Plus, Cell(0, 0), [], 0, 0) == Cell(0, 0)
  {
  }
}
