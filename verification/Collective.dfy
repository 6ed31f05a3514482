/** Collective plans over ranks: the planner, its chunking, and what executing a plan means cell by cell. */
module Collective {
  import opened Wrappers
  import Shapes

  datatype Kind = Broadcast(root: nat) | AllGather | ReduceScatter | AllReduce

  /** Devices are their positions in the group, which is never empty. */
  datatype Request = Request(ranks: nat, kind: Kind, lengths: seq<nat>)

  datatype Range = Range(start: nat, len: nat)

  datatype ActionOp = LocalCopy | Transfer | ReduceSum

  datatype Action = Action(id: nat, dependsOn: seq<nat>, op: ActionOp, source: nat, destination: nat, range: Range)

  datatype Plan = Plan(request: Request, outputLengths: seq<nat>, chunks: seq<Range>, actions: seq<Action>)

  datatype PlanError =
    | LengthCount
    | UnequalLengths
    | RootOutside
    | CountOverflow
    | PlanMismatch
    | InputCount
    | InputLength
    | BadDependency
    | BadRange
    | OutsideGroup

  // The plan of a request

  function Base(lengths: seq<nat>, k: nat): (b: nat)
    requires k <= |lengths|
  {
    if k == 0 then 0 else Base(lengths, k - 1) + lengths[k - 1]
  }

  lemma {:induction false} BaseMonotone(lengths: seq<nat>, i: nat, j: nat)
    requires i <= j <= |lengths|
    ensures Base(lengths, i) <= Base(lengths, j)
    decreases j
  {
    if i < j {
      BaseMonotone(lengths, i, j - 1);
    }
  }

  /** Why a request has no plan. */
  function Invalid(r: Request): Option<PlanError> {
    if |r.lengths| != r.ranks then Some(LengthCount)
    else if !r.kind.AllGather? && exists i :: 0 < i < |r.lengths| && r.lengths[i - 1] != r.lengths[i]
      then Some(UnequalLengths)
    else if r.kind.Broadcast? && r.kind.root >= r.ranks then Some(RootOutside)
    else if r.kind.AllGather? && Base(r.lengths, |r.lengths|) > Shapes.COUNT_LIMIT then Some(CountOverflow)
    else None
  }

  function TotalOf(r: Request): nat
    requires r.ranks > 0 && |r.lengths| == r.ranks
  {
    if r.kind.AllGather? then Base(r.lengths, r.ranks) else r.lengths[0]
  }

  /** Chunk `i` of `count` elements over `n` ranks: the first `count % n` chunks are one longer. */
  function Chunk(count: nat, n: nat, i: nat): Range
    requires n > 0
  {
    var q, rem := count / n, count % n;
    Range(i * q + (if i < rem then i else rem), q + if i < rem then 1 else 0)
  }

  function Chunks(count: nat, n: nat): (chunks: seq<Range>)
    requires n > 0
    ensures |chunks| == n && forall i :: 0 <= i < n ==> chunks[i] == Chunk(count, n, i)
  {
    seq(n, i requires 0 <= i < n => Chunk(count, n, i))
  }

  function Lengths(ranges: seq<Range>): (lens: seq<nat>)
    ensures |lens| == |ranges| && forall i :: 0 <= i < |ranges| ==> lens[i] == ranges[i].len
  {
    seq(|ranges|, i requires 0 <= i < |ranges| => ranges[i].len)
  }

  function Push(actions: seq<Action>, op: ActionOp, source: nat, destination: nat, range: Range,
                deps: seq<nat>): seq<Action> {
    actions + [Action(|actions|, deps, op, source, destination, range)]
  }

  /** A transfer into the destination's inbox and the copy that depends on it. */
  function PushRemote(actions: seq<Action>, source: nat, destination: nat, range: Range): seq<Action> {
    Push(Push(actions, Transfer, source, destination, range, []), LocalCopy, source, destination, range, [|actions|])
  }

  function BroadcastTo(root: nat, total: nat, k: nat): seq<Action> {
    if k == 0 then Push([], LocalCopy, root, root, Range(0, total), [])
    else
      var a := BroadcastTo(root, total, k - 1);
      if k - 1 == root then a else PushRemote(a, root, k - 1, Range(0, total))
  }

  /** Source `src`'s contribution delivered to destinations 0 to `k - 1`. */
  function GatherRow(actions: seq<Action>, src: nat, range: Range, k: nat): seq<Action> {
    if k == 0 then actions
    else
      var a := GatherRow(actions, src, range, k - 1);
      if k - 1 == src then Push(a, LocalCopy, src, src, range, []) else PushRemote(a, src, k - 1, range)
  }

  function GatherFrom(lengths: seq<nat>, k: nat): seq<Action>
    requires k <= |lengths|
  {
    if k == 0 then []
    else GatherRow(GatherFrom(lengths, k - 1), k - 1, Range(Base(lengths, k - 1), lengths[k - 1]), |lengths|)
  }

  /** Destination `dst`'s own copy, then sources 0 to `k - 1` transferred and added one by one. */
  function ReduceRow(actions: seq<Action>, dst: nat, range: Range, k: nat): (r: seq<Action>)
    ensures |r| > 0
  {
    if k == 0 then Push(actions, LocalCopy, dst, dst, range, [])
    else
      var a := ReduceRow(actions, dst, range, k - 1);
      if k - 1 == dst then a
      else Push(Push(a, Transfer, k - 1, dst, range, []), ReduceSum, k - 1, dst, range, [|a| - 1, |a|])
  }

  function ReduceTo(n: nat, ranges: seq<Range>, k: nat): seq<Action>
    requires k <= |ranges|
  {
    if k == 0 then [] else ReduceRow(ReduceTo(n, ranges, k - 1), k - 1, ranges[k - 1], n)
  }

  function Whole(total: nat, n: nat): (ranges: seq<Range>)
    ensures |ranges| == n && forall i :: 0 <= i < n ==> ranges[i] == Range(0, total)
  {
    seq(n, _ => Range(0, total))
  }

  function ActionsOf(r: Request): seq<Action>
    requires r.ranks > 0 && Invalid(r).None?
  {
    var n, total := r.ranks, TotalOf(r);
    match r.kind
    case Broadcast(root) => BroadcastTo(root, total, n)
    case AllGather => GatherFrom(r.lengths, n)
    case ReduceScatter => ReduceTo(n, Chunks(total, n), n)
    case AllReduce => ReduceTo(n, Whole(total, n), n)
  }

  function OutputLengths(r: Request): (lens: seq<nat>)
    requires r.ranks > 0 && |r.lengths| == r.ranks
    ensures |lens| == r.ranks
  {
    if r.kind.ReduceScatter? then Lengths(Chunks(TotalOf(r), r.ranks))
    else seq(r.ranks, _ => TotalOf(r))
  }

  function Canonical(r: Request): Result<Plan, PlanError>
    requires r.ranks > 0
  {
    match Invalid(r)
    case Some(e) => Err(e)
    case None => Ok(Plan(r, OutputLengths(r), Chunks(TotalOf(r), r.ranks), ActionsOf(r)))
  }

  // Chunking

  lemma ChunkNext(count: nat, n: nat, i: nat)
    requires n > 0
    ensures Chunk(count, n, i + 1).start == Chunk(count, n, i).start + Chunk(count, n, i).len
  {
    assert (i + 1) * (count / n) == i * (count / n) + count / n;
  }

  lemma ChunkEnd(count: nat, n: nat)
    requires n > 0
    ensures Chunk(count, n, n).start == count
  {
    assert count == n * (count / n) + count % n;
  }

  lemma {:induction false} ChunkBelow(count: nat, n: nat, i: nat)
    requires i < n
    ensures Chunk(count, n, i).start + Chunk(count, n, i).len <= count
    decreases n - i
  {
    hide Chunk;
    ChunkNext(count, n, i);
    ChunkEnd(count, n);
    if i + 1 < n {
      ChunkBelow(count, n, i + 1);
    }
  }

  /**
   * The chunks are contiguous and in order, cover exactly `count` elements, and the first ones are at most one longer.
   */
  lemma ChunksCover(count: nat, n: nat)
    requires n > 0
    ensures var c := Chunks(count, n);
            c[0].start == 0 && c[n - 1].start + c[n - 1].len == count &&
            (forall i :: 0 <= i < n - 1 ==> c[i + 1].start == c[i].start + c[i].len) &&
            (forall i, j :: 0 <= i < n && 0 <= j < n ==> c[i].len <= c[j].len + 1) &&
            (forall i, j :: 0 <= i <= j < n ==> c[j].len <= c[i].len) &&
            forall i :: 0 <= i < n ==> c[i].start + c[i].len <= count
  {
    var c := Chunks(count, n);
    ChunkFirst(count, n);
    hide Chunk;
    ChunkEnd(count, n);
    ChunkNext(count, n, n - 1);
    forall i | 0 <= i < n
      ensures c[i].start + c[i].len <= count && Chunk(count, n, i + 1).start == c[i].start + c[i].len
    {
      ChunkBelow(count, n, i);
      ChunkNext(count, n, i);
    }
    forall i: nat, j: nat | i < n && j < n
      ensures c[i].len <= c[j].len + 1 && (i <= j ==> c[j].len <= c[i].len)
    {
      ChunkEven(count, n, i, j);
    }
  }

  lemma ChunkFirst(count: nat, n: nat)
    requires n > 0
    ensures Chunk(count, n, 0).start == 0
  {
  }

  lemma ChunkEven(count: nat, n: nat, i: nat, j: nat)
    requires n > 0
    ensures Chunk(count, n, i).len <= Chunk(count, n, j).len + 1
    ensures i <= j ==> Chunk(count, n, j).len <= Chunk(count, n, i).len
  {
  }

  /** Each chunk starts where the lengths of its predecessors end. */
  lemma {:induction false} ChunkStart(count: nat, n: nat, i: nat)
    requires n > 0 && i <= n
    ensures Base(Lengths(Chunks(count, n)), i) == if i < n then Chunks(count, n)[i].start else count
    decreases i
  {
    ChunksCover(count, n);
    if i > 0 {
      ChunkStart(count, n, i - 1);
    }
  }

  // Every planned action is well placed

  /** Action `i` of a plan: numbered by position, depending on earlier actions, inside the group and the workspace. */
  ghost predicate Placed(r: Request, a: Action, i: nat)
    requires r.ranks > 0 && |r.lengths| == r.ranks
  {
    a.id == i && (forall d :: d in a.dependsOn ==> d < i) && a.source < r.ranks && a.destination < r.ranks &&
    a.range.start + a.range.len <= TotalOf(r) &&
    if r.kind.AllGather? then a.range == Range(Base(r.lengths, a.source), r.lengths[a.source])
    else a.range.start + a.range.len <= r.lengths[a.source]
  }

  ghost predicate AllPlaced(r: Request, actions: seq<Action>)
    requires r.ranks > 0 && |r.lengths| == r.ranks
  {
    forall i :: 0 <= i < |actions| ==> Placed(r, actions[i], i)
  }

  lemma {:induction false} BroadcastPlaced(r: Request, k: nat)
    requires r.ranks > 0 && Invalid(r).None? && r.kind.Broadcast? && k <= r.ranks
    ensures AllPlaced(r, BroadcastTo(r.kind.root, TotalOf(r), k))
  {
    SameLengths(r);
    if k > 0 {
      BroadcastPlaced(r, k - 1);
    }
  }

  lemma {:induction false} GatherRowPlaced(r: Request, actions: seq<Action>, src: nat, k: nat)
    requires r.ranks > 0 && Invalid(r).None? && r.kind.AllGather? && k <= r.ranks && src < r.ranks
    requires AllPlaced(r, actions)
    ensures AllPlaced(r, GatherRow(actions, src, Range(Base(r.lengths, src), r.lengths[src]), k))
    decreases k
  {
    BaseMonotone(r.lengths, src + 1, r.ranks);
    if k > 0 {
      GatherRowPlaced(r, actions, src, k - 1);
    }
  }

  lemma {:induction false} GatherPlaced(r: Request, k: nat)
    requires r.ranks > 0 && Invalid(r).None? && r.kind.AllGather? && k <= r.ranks
    ensures AllPlaced(r, GatherFrom(r.lengths, k))
  {
    hide AllPlaced;
    if k > 0 {
      GatherPlaced(r, k - 1);
      GatherRowPlaced(r, GatherFrom(r.lengths, k - 1), k - 1, r.ranks);
    } else {
      NonePlaced(r);
    }
  }

  lemma NonePlaced(r: Request)
    requires r.ranks > 0 && |r.lengths| == r.ranks
    ensures AllPlaced(r, [])
  {
  }

  lemma {:induction false} ReduceRowPlaced(r: Request, actions: seq<Action>, dst: nat, range: Range, k: nat)
    requires r.ranks > 0 && Invalid(r).None? && !r.kind.AllGather? && k <= r.ranks && dst < r.ranks
    requires AllPlaced(r, actions)
    requires range.start + range.len <= TotalOf(r)
    ensures AllPlaced(r, ReduceRow(actions, dst, range, k))
    decreases k
  {
    SameLengths(r);
    if k > 0 {
      ReduceRowPlaced(r, actions, dst, range, k - 1);
    }
  }

  lemma {:induction false} ReducePlaced(r: Request, ranges: seq<Range>, k: nat)
    requires r.ranks > 0 && Invalid(r).None? && !r.kind.AllGather? && k <= r.ranks == |ranges|
    requires forall i :: 0 <= i < |ranges| ==> ranges[i].start + ranges[i].len <= TotalOf(r)
    ensures AllPlaced(r, ReduceTo(r.ranks, ranges, k))
    decreases k
  {
    hide AllPlaced;
    if k > 0 {
      ReducePlaced(r, ranges, k - 1);
      ReduceRowPlaced(r, ReduceTo(r.ranks, ranges, k - 1), k - 1, ranges[k - 1], r.ranks);
    } else {
      NonePlaced(r);
    }
  }

  /** Outside all-gather every rank contributes the same number of elements. */
  lemma SameLengths(r: Request)
    requires r.ranks > 0 && Invalid(r).None? && !r.kind.AllGather?
    ensures forall i :: 0 <= i < r.ranks ==> r.lengths[i] == TotalOf(r)
  {
    forall i: nat | i < r.ranks
      ensures r.lengths[i] == r.lengths[0]
    {
      AdjacentEqual(r.lengths, i);
    }
  }

  lemma {:induction false} AdjacentEqual(lengths: seq<nat>, i: nat)
    requires i < |lengths| && forall k :: 0 < k < |lengths| ==> lengths[k - 1] == lengths[k]
    ensures lengths[i] == lengths[0]
  {
    if i > 0 {
      AdjacentEqual(lengths, i - 1);
    }
  }

  /** No planned action names a missing rank, waits for a later action, or leaves the workspace or its source. */
  lemma PlanPlaced(r: Request)
    requires r.ranks > 0 && Invalid(r).None?
    ensures AllPlaced(r, ActionsOf(r))
  {
    hide AllPlaced;
    match r.kind
    case Broadcast(_) => BroadcastPlaced(r, r.ranks);
    case AllGather => GatherPlaced(r, r.ranks);
    case ReduceScatter =>
      ChunksCover(TotalOf(r), r.ranks);
      ReducePlaced(r, Chunks(TotalOf(r), r.ranks), r.ranks);
    case AllReduce => ReducePlaced(r, Whole(TotalOf(r), r.ranks), r.ranks);
  }
}
