/** Where every action of a plan stands, and which ranks get the longer chunks: closed forms of the planner's loops. */
module Layout {
  import opened Wrappers
  import opened Powers
  import opened Collective

  // Requests

  /** A request with a plan: one length per rank, equal ones outside all-gather, a root inside the group. */
  ghost predicate Plannable(r: Request) {
    |r.lengths| == r.ranks &&
    (r.kind.AllGather? || forall i, j :: 0 <= i < j < |r.lengths| ==> r.lengths[i] == r.lengths[j]) &&
    (r.kind.Broadcast? ==> r.kind.root < r.ranks) &&
    (r.kind.AllGather? ==> Base(r.lengths, |r.lengths|) <= 0xFFFF_FFFF_FFFF_FFFF)
  }

  /** Which requests are refused, and with which fault. */
  lemma InvalidIs(r: Request)
    ensures Invalid(r).None? <==> Plannable(r)
    ensures Invalid(r) == Some(LengthCount) <==> |r.lengths| != r.ranks
    ensures Invalid(r) == Some(RootOutside) ==> r.kind.Broadcast? && r.kind.root >= r.ranks
    ensures Invalid(r) == Some(CountOverflow) ==>
              r.kind.AllGather? && Base(r.lengths, |r.lengths|) > 0xFFFF_FFFF_FFFF_FFFF
    ensures Invalid(r) == Some(UnequalLengths) <==>
            |r.lengths| == r.ranks && !r.kind.AllGather? &&
            exists i, j :: 0 <= i < j < |r.lengths| && r.lengths[i] != r.lengths[j]
    ensures Invalid(r).Some? ==> Invalid(r).value in {LengthCount, UnequalLengths, RootOutside, CountOverflow}
  {
    if forall k :: 0 < k < |r.lengths| ==> r.lengths[k - 1] == r.lengths[k] {
      forall i: nat | i < |r.lengths|
        ensures r.lengths[i] == r.lengths[0]
      {
        AdjacentEqual(r.lengths, i);
      }
    }
  }

  // Chunks

  /** Contiguous chunks in order, the longer first and none more than one longer, can only be cut in one way. */
  lemma ChunksDetermined(count: nat, n: nat, c: seq<Range>)
    requires n > 0 && |c| == n && c[0].start == 0 && c[n - 1].start + c[n - 1].len == count
    requires forall i :: 0 <= i < n - 1 ==> c[i + 1].start == c[i].start + c[i].len
    requires forall i, j :: 0 <= i <= j < n ==> c[j].len <= c[i].len <= c[j].len + 1
    ensures c == Chunks(count, n)
  {
    var q := c[n - 1].len;
    var m := LongOnes(c, q, n);
    forall i: nat | i < n
      ensures c[i].start == i * q + if i < m then i else m
    {
      StartAt(c, q, m, i);
    }
    assert count == q * n + m;
    DivisionUnique(q, m, n);
    forall i | 0 <= i < n
      ensures c[i] == Chunk(count, n, i)
    {
    }
  }

  /** How many of the first `k` chunks are longer than the last. */
  lemma {:induction false} LongOnes(c: seq<Range>, q: nat, k: nat) returns (m: nat)
    requires k <= |c| && forall i, j :: 0 <= i <= j < |c| ==> c[j].len <= c[i].len
    requires forall i :: 0 <= i < |c| ==> q <= c[i].len <= q + 1
    ensures m <= k && (forall i :: 0 <= i < m ==> c[i].len == q + 1) && forall i :: m <= i < k ==> c[i].len == q
  {
    if k == 0 {
      m := 0;
    } else {
      m := LongOnes(c, q, k - 1);
      if c[k - 1].len == q + 1 {
        m := k;
      }
    }
  }

  lemma {:induction false} StartAt(c: seq<Range>, q: nat, m: nat, i: nat)
    requires i < |c| && m <= |c| && c[0].start == 0
    requires forall j :: 0 <= j < |c| - 1 ==> c[j + 1].start == c[j].start + c[j].len
    requires forall j :: 0 <= j < |c| ==> c[j].len == q + if j < m then 1 else 0
    ensures c[i].start == i * q + if i < m then i else m
  {
    if i > 0 {
      StartAt(c, q, m, i - 1);
      assert i * q == (i - 1) * q + q;
    }
  }

  /**
   * The lengths of a plan: its chunks cut everything, in order and the longer first; a reduce-scatter gives every rank
   * its own chunk, the others give every rank everything.
   */
  ghost predicate Shared(r: Request, plan: Plan)
    requires r.ranks == |r.lengths| > 0
  {
    var n, c := r.ranks, plan.chunks;
    var total := if r.kind.AllGather? then Base(r.lengths, n) else r.lengths[0];
    |c| == |plan.outputLengths| == n && c[0].start == 0 && c[n - 1].start + c[n - 1].len == total &&
    (forall i :: 0 <= i < n - 1 ==> c[i + 1].start == c[i].start + c[i].len) &&
    (forall i, j :: 0 <= i <= j < n ==> c[j].len <= c[i].len <= c[j].len + 1) &&
    forall d :: 0 <= d < n ==> plan.outputLengths[d] == if r.kind.ReduceScatter? then c[d].len else total
  }

  lemma PlanShared(r: Request, plan: Plan)
    requires r.ranks > 0 && Canonical(r) == Ok(plan)
    ensures plan.request == r && |r.lengths| == r.ranks && Shared(r, plan)
  {
    hide Chunk, ActionsOf;
    ChunksCover(TotalOf(r), r.ranks);
  }

  // Reductions

  /** Where the row of rank `d` starts: every row of `n` ranks holds one copy and two actions for each other rank. */
  function Row(n: nat, d: nat): nat
    requires n > 0
  {
    d * (2 * n - 1)
  }

  lemma NextRow(n: nat, d: nat)
    requires n > 0
    ensures Row(n, d + 1) == Row(n, d) + 2 * n - 1 && Row(n, 0) == 0
  {
  }

  /** The place of `k` among the ranks other than `own`. */
  function Skipping(k: nat, own: nat): nat {
    if own < k then k - 1 else k
  }

  /** At position `t`: rank `src`'s contribution is transferred to `dst` and added, after what was done before. */
  ghost predicate AddedAt(r: seq<Action>, t: nat, src: nat, dst: nat, range: Range) {
    0 < t && t + 1 < |r| && r[t] == Action(t, [], Transfer, src, dst, range) &&
    r[t + 1] == Action(t + 1, [t - 1, t], ReduceSum, src, dst, range)
  }

  lemma {:induction false} ReduceRowAt(actions: seq<Action>, dst: nat, range: Range, k: nat)
    ensures var r, base := ReduceRow(actions, dst, range, k), |actions|;
            actions <= r && |r| == base + 1 + 2 * Skipping(k, dst) &&
            r[base] == Action(base, [], LocalCopy, dst, dst, range) &&
            forall src: nat :: src < k && src != dst ==>
              AddedAt(r, base + 1 + 2 * Skipping(src, dst), src, dst, range)
    decreases k
  {
    if k > 0 {
      ReduceRowAt(actions, dst, range, k - 1);
    }
  }

  /** A reduction plan: for rank after rank the own copy, then every other contribution in group order. */
  lemma {:induction false} ReduceAt(n: nat, ranges: seq<Range>, k: nat)
    requires k <= n == |ranges| && n > 0
    ensures var plan := ReduceTo(n, ranges, k);
            |plan| == Row(n, k) && forall dst: nat :: dst < k ==> RowAt(plan, Row(n, dst), dst, ranges[dst], n)
    decreases k
  {
    hide RowAt, Row, ReduceRow;
    if k > 0 {
      ReduceAt(n, ranges, k - 1);
      NextRow(n, k - 1);
      var before, plan := ReduceTo(n, ranges, k - 1), ReduceTo(n, ranges, k);
      RowAdded(before, k - 1, ranges[k - 1], n);
      forall dst: nat | dst < k
        ensures RowAt(plan, Row(n, dst), dst, ranges[dst], n)
      {
        if dst < k - 1 {
          RowKept(before, plan, Row(n, dst), dst, ranges[dst], n);
        }
      }
    } else {
      NextRow(n, 0);
    }
  }

  lemma RowAdded(actions: seq<Action>, dst: nat, range: Range, n: nat)
    requires dst < n
    ensures var r := ReduceRow(actions, dst, range, n);
            actions <= r && |r| == |actions| + 2 * n - 1 && RowAt(r, |actions|, dst, range, n)
  {
    ReduceRowAt(actions, dst, range, n);
  }

  ghost predicate RowAt(r: seq<Action>, base: nat, dst: nat, range: Range, n: nat) {
    base < |r| && r[base] == Action(base, [], LocalCopy, dst, dst, range) &&
    forall src: nat :: src < n && src != dst ==> AddedAt(r, base + 1 + 2 * Skipping(src, dst), src, dst, range)
  }

  lemma RowKept(before: seq<Action>, r: seq<Action>, base: nat, dst: nat, range: Range, n: nat)
    requires before <= r && RowAt(before, base, dst, range, n)
    ensures RowAt(r, base, dst, range, n)
  {
    forall src: nat | src < n && src != dst
      ensures AddedAt(r, base + 1 + 2 * Skipping(src, dst), src, dst, range)
    {
      assert AddedAt(before, base + 1 + 2 * Skipping(src, dst), src, dst, range);
    }
  }

  // Copies

  /** At position `t`: rank `src`'s contribution is transferred to `dst` and then copied into place. */
  ghost predicate CopiedAt(r: seq<Action>, t: nat, src: nat, dst: nat, range: Range) {
    t + 1 < |r| && r[t] == Action(t, [], Transfer, src, dst, range) &&
    r[t + 1] == Action(t + 1, [t], LocalCopy, src, dst, range)
  }

  /** A broadcast: the root's own copy, then every other rank in group order. */
  lemma {:induction false} BroadcastAt(root: nat, total: nat, k: nat)
    ensures var r := BroadcastTo(root, total, k);
            |r| == 1 + 2 * Skipping(k, root) && r[0] == Action(0, [], LocalCopy, root, root, Range(0, total)) &&
            forall dst: nat :: dst < k && dst != root ==>
              CopiedAt(r, 1 + 2 * Skipping(dst, root), root, dst, Range(0, total))
    decreases k
  {
    if k > 0 {
      BroadcastAt(root, total, k - 1);
      var before, r := BroadcastTo(root, total, k - 1), BroadcastTo(root, total, k);
      assert before <= r;
      forall dst: nat | dst < k && dst != root
        ensures CopiedAt(r, 1 + 2 * Skipping(dst, root), root, dst, Range(0, total))
      {
        if dst < k - 1 {
          assert CopiedAt(before, 1 + 2 * Skipping(dst, root), root, dst, Range(0, total));
        }
      }
    }
  }

  /** Where source `src`'s delivery to `dst` starts inside the source's row. */
  function Delivered(src: nat, dst: nat): nat {
    if src < dst then 2 * dst - 1 else 2 * dst
  }

  predicate OwnAt(r: seq<Action>, t: nat, src: nat, range: Range) {
    t < |r| && r[t] == Action(t, [], LocalCopy, src, src, range)
  }

  ghost predicate GatheredAt(r: seq<Action>, base: nat, src: nat, range: Range, k: nat) {
    (src < k ==> OwnAt(r, base + 2 * src, src, range)) &&
    forall dst: nat :: dst < k && dst != src ==> CopiedAt(r, base + Delivered(src, dst), src, dst, range)
  }

  lemma GatheredKept(before: seq<Action>, r: seq<Action>, base: nat, src: nat, range: Range, k: nat)
    requires before <= r && GatheredAt(before, base, src, range, k)
    ensures GatheredAt(r, base, src, range, k)
  {
    forall dst: nat | dst < k && dst != src
      ensures CopiedAt(r, base + Delivered(src, dst), src, dst, range)
    {
      assert CopiedAt(before, base + Delivered(src, dst), src, dst, range);
    }
  }

  lemma {:induction false} GatherRowAt(actions: seq<Action>, src: nat, range: Range, k: nat)
    ensures var r := GatherRow(actions, src, range, k);
            actions <= r && |r| == |actions| + 2 * k - (if src < k then 1 else 0) &&
            GatheredAt(r, |actions|, src, range, k)
    decreases k
  {
    if k > 0 {
      GatherRowAt(actions, src, range, k - 1);
      var before, r := GatherRow(actions, src, range, k - 1), GatherRow(actions, src, range, k);
      GatheredKept(before, r, |actions|, src, range, k - 1);
    }
  }

  /** An all-gather: source after source, to every rank in group order, at the source's place in the concatenation. */
  lemma {:induction false} GatherAt(lengths: seq<nat>, k: nat)
    requires k <= |lengths| && |lengths| > 0
    ensures var plan, n := GatherFrom(lengths, k), |lengths|;
            |plan| == Row(n, k) &&
            forall src: nat :: src < k ==>
              GatheredAt(plan, Row(n, src), src, Range(Base(lengths, src), lengths[src]), n)
  {
    hide GatheredAt, Row, GatherRow, Base;
    var n := |lengths|;
    if k > 0 {
      GatherAt(lengths, k - 1);
      NextRow(n, k - 1);
      var before, plan := GatherFrom(lengths, k - 1), GatherFrom(lengths, k);
      GatherRowAt(before, k - 1, Range(Base(lengths, k - 1), lengths[k - 1]), n);
      forall src: nat | src < k
        ensures GatheredAt(plan, Row(n, src), src, Range(Base(lengths, src), lengths[src]), n)
      {
        if src < k - 1 {
          GatheredKept(before, plan, Row(n, src), src, Range(Base(lengths, src), lengths[src]), n);
        }
      }
    } else {
      NextRow(n, 0);
    }
  }

  // All four kinds

  /** Every action of a plan by its position, and how many there are. */
  ghost predicate LaidOut(r: Request, plan: Plan)
    requires r.ranks == |r.lengths| > 0 && |plan.chunks| == r.ranks
  {
    var n, total, a := r.ranks, r.lengths[0], plan.actions;
    |a| == (if r.kind.Broadcast? then 2 * n - 1 else Row(n, n)) &&
    match r.kind
    case Broadcast(root) =>
      OwnAt(a, 0, root, Range(0, total)) &&
      forall dst: nat :: dst < n && dst != root ==>
        CopiedAt(a, 1 + 2 * Skipping(dst, root), root, dst, Range(0, total))
    case AllGather =>
      forall src: nat :: src < n ==>
        GatheredAt(a, Row(n, src), src, Range(Base(r.lengths, src), r.lengths[src]), n)
    case ReduceScatter => forall dst: nat :: dst < n ==> RowAt(a, Row(n, dst), dst, plan.chunks[dst], n)
    case AllReduce => forall dst: nat :: dst < n ==> RowAt(a, Row(n, dst), dst, Range(0, total), n)
  }

  lemma PlanLaidOut(r: Request, plan: Plan)
    requires r.ranks > 0 && Canonical(r) == Ok(plan)
    ensures |r.lengths| == |plan.chunks| == r.ranks && LaidOut(r, plan)
  {
    hide GatheredAt, RowAt, CopiedAt, Row, Chunk, ReduceTo, GatherFrom, BroadcastTo;
    match r.kind
    case Broadcast(root) => BroadcastAt(root, TotalOf(r), r.ranks);
    case AllGather => GatherAt(r.lengths, r.ranks);
    case ReduceScatter => ReduceAt(r.ranks, Chunks(TotalOf(r), r.ranks), r.ranks);
    case AllReduce => ReduceAt(r.ranks, Whole(TotalOf(r), r.ranks), r.ranks);
  }
}
