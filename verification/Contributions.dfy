/** Which contributions reach every element of a collective, and in which order they are added. */
module Contributions {
  import opened Collective
  import opened Delivery
  import opened Layout
  import opened Executor

  /** One input element: its rank and its position there. */
  datatype Origin = Origin(rank: nat, at: nat)

  /** Adding lists end to end keeps every addend and its place. */
  function Listed(x: seq<Origin>, y: seq<Origin>): seq<Origin> {
    x + y
  }

  /** Every input element is the list of itself. */
  ghost predicate Marked(inputs: seq<seq<seq<Origin>>>) {
    forall s: nat, i: nat :: s < |inputs| && i < |inputs[s]| ==> inputs[s][i] == [Origin(s, i)]
  }

  /** Rank `d`'s element at position `k`: its own first, then every other rank's in group order, each once. */
  ghost predicate Spelled(v: seq<Origin>, d: nat, n: nat, k: nat) {
    |v| == n > 0 && v[0] == Origin(d, k) &&
    forall s: nat :: s < n && s != d ==> 1 + Skipping(s, d) < n && v[1 + Skipping(s, d)] == Origin(s, k)
  }

  lemma {:induction false} OwnFirstSpells(job: Job<seq<Origin>>, d: nat, j: nat, n: nat, k: nat)
    requires d < n && j <= n && forall s: nat :: s < n ==> Given(job, s, k) == [Origin(s, k)]
    ensures var v := OwnFirst(job, Listed, d, j, k);
            |v| == 1 + Skipping(j, d) && v[0] == Origin(d, k) &&
            forall s: nat :: s < j && s != d ==> v[1 + Skipping(s, d)] == Origin(s, k)
    decreases j
  {
    hide Given;
    if j > 0 {
      OwnFirstSpells(job, d, j - 1, n, k);
    }
  }

  lemma MarkedGiven(job: Job<seq<Origin>>, s: nat, k: nat)
    requires !job.request.kind.AllGather? && Marked(job.inputs) && s < |job.inputs| && k < |job.inputs[s]|
    ensures Given(job, s, k) == [Origin(s, k)]
  {
  }

  /** Every element of an all-reduce adds every rank's element at its position exactly once, the rank's own first. */
  lemma AllReduceSpells(plan: Plan, job: Job<seq<Origin>>, outputs: seq<seq<seq<Origin>>>, d: nat, k: nat)
    requires Runs(plan, job) && plan.request.kind.AllReduce? && IsOutcome(plan, job, Listed, outputs)
    requires Marked(job.inputs) && d < plan.request.ranks && k < plan.request.lengths[0]
    ensures |outputs[d]| == plan.request.lengths[0] && Spelled(outputs[d][k], d, plan.request.ranks, k)
  {
    hide Given, IsOutcome, OwnFirst, Marked;
    AllReduceOutcome(plan, job, Listed, outputs, d, k);
    ReducedSpells(plan, job, d, k);
  }

  lemma ReducedSpells(plan: Plan, job: Job<seq<Origin>>, d: nat, k: nat)
    requires Runs(plan, job) && !plan.request.kind.AllGather? && Marked(job.inputs)
    requires d < plan.request.ranks && k < plan.request.lengths[0]
    ensures Spelled(OwnFirst(job, Listed, d, plan.request.ranks, k), d, plan.request.ranks, k)
  {
    hide Given, OwnFirst, Marked;
    var n := plan.request.ranks;
    SameLengths(plan.request);
    forall s: nat | s < n
      ensures Given(job, s, k) == [Origin(s, k)]
    {
      MarkedGiven(job, s, k);
    }
    OwnFirstSpells(job, d, n, n, k);
  }

  /** Every element of a rank's shard adds every rank's element at the shard's place in the whole. */
  lemma ReduceScatterSpells(plan: Plan, job: Job<seq<Origin>>, outputs: seq<seq<seq<Origin>>>, d: nat, k: nat)
    requires Runs(plan, job) && plan.request.kind.ReduceScatter? && IsOutcome(plan, job, Listed, outputs)
    requires Marked(job.inputs) && d < plan.request.ranks && k < plan.chunks[d].len
    ensures |outputs[d]| == plan.chunks[d].len
    ensures Spelled(outputs[d][k], d, plan.request.ranks, plan.chunks[d].start + k)
  {
    hide Given, IsOutcome, OwnFirst, Marked;
    ReduceScatterOutcome(plan, job, Listed, outputs, d, k);
    ChunksCover(TotalOf(plan.request), plan.request.ranks);
    ReducedSpells(plan, job, d, plan.chunks[d].start + k);
  }

  // The concatenation

  function Joined<E>(inputs: seq<seq<E>>): seq<E> {
    if |inputs| == 0 then [] else Joined(inputs[..|inputs| - 1]) + inputs[|inputs| - 1]
  }

  /** Element `i` of input `s` stands where the lengths before it end. */
  ghost predicate JoinedAt<E>(inputs: seq<seq<E>>, lengths: seq<nat>, all: seq<E>, s: nat, i: nat)
    requires |inputs| == |lengths| && s < |inputs|
  {
    i < |inputs[s]| ==> Base(lengths, s) + i < |all| && all[Base(lengths, s) + i] == inputs[s][i]
  }

  lemma {:induction false} JoinedIs<E>(inputs: seq<seq<E>>, lengths: seq<nat>, n: nat)
    requires n <= |inputs| == |lengths| && forall s :: 0 <= s < |inputs| ==> |inputs[s]| == lengths[s]
    ensures |Joined(inputs[..n])| == Base(lengths, n)
    ensures forall s: nat, i: nat :: s < n ==> JoinedAt(inputs, lengths, Joined(inputs[..n]), s, i)
  {
    if n > 0 {
      JoinedIs(inputs, lengths, n - 1);
      assert inputs[..n][..n - 1] == inputs[..n - 1];
      var before, all := Joined(inputs[..n - 1]), Joined(inputs[..n]);
      assert all == before + inputs[n - 1];
      forall s: nat, i: nat | s < n
        ensures JoinedAt(inputs, lengths, all, s, i)
      {
        if s < n - 1 {
          assert JoinedAt(inputs, lengths, before, s, i);
        }
      }
    }
  }

  /** Every rank of an all-gather holds the inputs end to end. */
  lemma GatherJoins<E>(plan: Plan, job: Job<E>, add: (E, E) -> E, outputs: seq<seq<E>>, d: nat)
    requires Runs(plan, job) && plan.request.kind.AllGather? && IsOutcome(plan, job, add, outputs)
    requires d < plan.request.ranks
    ensures outputs[d] == Joined(job.inputs)
  {
    hide IsOutcome, Joined;
    var r := plan.request;
    JoinedIs(job.inputs, r.lengths, r.ranks);
    assert job.inputs[..r.ranks] == job.inputs;
    GatheredLength(plan, job, add, outputs, d);
    forall k: nat | k < |outputs[d]|
      ensures outputs[d][k] == Joined(job.inputs)[k]
    {
      var s := SourceOf(r.lengths, k, r.ranks);
      GatherOutcome(plan, job, add, outputs, s, d, k - Base(r.lengths, s));
      assert JoinedAt(job.inputs, r.lengths, Joined(job.inputs), s, k - Base(r.lengths, s));
    }
  }

  lemma GatheredLength<E>(plan: Plan, job: Job<E>, add: (E, E) -> E, outputs: seq<seq<E>>, d: nat)
    requires Runs(plan, job) && plan.request.kind.AllGather? && IsOutcome(plan, job, add, outputs)
    requires d < plan.request.ranks
    ensures |plan.request.lengths| == |job.inputs| == plan.request.ranks == |outputs|
    ensures |outputs[d]| == Base(plan.request.lengths, plan.request.ranks)
  {
    hide RunCell, ActionsOf;
    assert IsRowOutcome(plan, job, add, outputs[d], d);
  }
}
