/** The in-place all-reduce over device buffers: peers, snapshots, failing driver calls and rollback. */
module DeviceReduce {
  import opened Wrappers
  import opened Collective
  import opened Delivery
  import opened Executor

  /** One driver call's fate. A failing call may already have left anything in the range it was to write. */
  datatype Outcome<E> = Works | Fails(junk: seq<E>)

  /** The fate of call `i` of a script; calls beyond it work. */
  function Fate<E>(script: seq<Outcome<E>>, i: nat): Outcome<E> {
    if i < |script| then script[i] else Works
  }

  /** The script left after `n` calls. */
  function Rest<E>(script: seq<Outcome<E>>, n: nat): seq<Outcome<E>> {
    if n <= |script| then script[n..] else []
  }

  lemma RestAgain<E>(script: seq<Outcome<E>>, n: nat, m: nat)
    ensures Rest(Rest(script, n), m) == Rest(script, n + m)
    ensures Fate(Rest(script, n), m) == Fate(script, n + m)
  {
  }

  /** Which of the next `n` calls is the first to fail. */
  function FirstFail<E>(script: seq<Outcome<E>>, n: nat): (f: Option<nat>)
    ensures f.Some? ==> f.value < n && Fate(script, f.value).Fails?
    ensures f.Some? ==> forall i: nat :: i < f.value ==> Fate(script, i).Works?
    ensures f.None? ==> forall i: nat :: i < n ==> Fate(script, i).Works?
  {
    if n == 0 then None
    else
      match FirstFail(script, n - 1)
      case Some(f) => Some(f)
      case None => if Fate(script, n - 1).Fails? then Some(n - 1) else None
  }

  /** How many of the next `n` calls are made when the first failure stops them. */
  function Calls<E>(script: seq<Outcome<E>>, n: nat): (c: nat)
    ensures c <= n
  {
    match FirstFail(script, n) case None => n case Some(f) => f + 1
  }

  lemma FirstFailIs<E>(script: seq<Outcome<E>>, n: nat, f: nat)
    requires f < n && Fate(script, f).Fails? && forall i: nat :: i < f ==> Fate(script, i).Works?
    ensures FirstFail(script, n) == Some(f)
  {
  }

  /** One more call of a batch of `n`, after `i` that worked. */
  lemma NextCall<E>(script: seq<Outcome<E>>, n: nat, i: nat)
    requires i < n && FirstFail(script, i).None?
    ensures Fate(Rest(script, i), 0) == Fate(script, i) && Rest(Rest(script, i), 1) == Rest(script, i + 1)
    ensures if Fate(script, i).Fails? then FirstFail(script, n) == Some(i) else FirstFail(script, i + 1).None?
  {
    RestAgain(script, i, 0);
    RestAgain(script, i, 1);
    if Fate(script, i).Fails? {
      FirstFailIs(script, n, i);
    }
  }

  lemma NoCalls<E>(script: seq<Outcome<E>>)
    ensures Rest(script, 0) == script && FirstFail(script, 0).None?
  {
  }

  /** `n` calls and then `m` more are `n + m` calls. */
  lemma FirstFailSplit<E>(script: seq<Outcome<E>>, n: nat, m: nat)
    requires FirstFail(script, n).None?
    ensures FirstFail(script, n + m).None? <==> FirstFail(Rest(script, n), m).None?
    ensures FirstFail(script, n + m).None? ==> Rest(Rest(script, n), m) == Rest(script, n + m)
  {
    RestAgain(script, n, m);
    forall i: nat | i < m
      ensures Fate(Rest(script, n), i) == Fate(script, n + i)
    {
      RestAgain(script, n, i);
    }
    assert forall i: nat :: n <= i ==> Fate(script, i) == Fate(script, n + (i - n));
  }

  /** The fates of the driver calls to come. */
  class Driver<E(==)> {
    var script: seq<Outcome<E>>

    constructor (script: seq<Outcome<E>>)
      ensures this.script == script
    {
      this.script := script;
    }

    method Next() returns (o: Outcome<E>)
      modifies this
      ensures o == Fate(old(script), 0) && script == Rest(old(script), 1)
    {
      if |script| == 0 {
        return Works;
      }
      o := script[0];
      script := script[1..];
    }
  }

  /** A caller's buffer on one device, with room for at least its logical prefix. */
  class Lease<E(==)> {
    const owner: nat
    const cells: array<E>

    constructor (owner: nat, cells: array<E>)
      ensures this.owner == owner && this.cells == cells
    {
      this.owner, this.cells := owner, cells;
    }
  }

  datatype DeviceError =
    | BadPlan
    | GroupMismatch
    | LeaseTooSmall
    | OwnerMismatch
    | PeerFailed(action: nat)
    | SetupFailed
    | ActionFailed(action: nat)
    | RollbackFailed

  /** Fills a range with a failing call's junk. */
  method Spoil<E>(dst: array<E>, start: nat, len: nat, junk: seq<E>)
    requires start + len <= dst.Length
    modifies dst
    ensures forall k: nat :: k < dst.Length && !(start <= k < start + len) ==> dst[k] == old(dst[k])
  {
    for j := 0 to len
      invariant forall k: nat :: k < dst.Length && !(start <= k < start + len) ==> dst[k] == old(dst[k])
    {
      if j < |junk| {
        dst[start + j] := junk[j];
      }
    }
  }

  /** A device copy of one range to the same range of another buffer. */
  method Copy<E(==)>(driver: Driver<E>, dst: array<E>, src: array<E>, start: nat, len: nat) returns (ok: bool)
    requires start + len <= dst.Length && start + len <= src.Length && dst != src
    modifies dst, driver
    ensures ok == Fate(old(driver.script), 0).Works? && driver.script == Rest(old(driver.script), 1)
    ensures forall k: nat :: k < dst.Length && !(start <= k < start + len) ==> dst[k] == old(dst[k])
    ensures ok ==> forall k: nat :: start <= k < start + len ==> dst[k] == src[k]
  {
    var fate := driver.Next();
    match fate {
      case Fails(junk) =>
        Spoil(dst, start, len, junk);
        return false;
      case Works =>
        for j := 0 to len
          invariant forall k: nat :: k < dst.Length ==> dst[k] == if start <= k < start + j then src[k] else old(dst[k])
          invariant driver.script == Rest(old(driver.script), 1)
        {
          dst[start + j] := src[start + j];
        }
        return true;
    }
  }

  /** A device addition of one range of `src` into the same range of `dst`. */
  method AddInto<E(==)>(driver: Driver<E>, add: (E, E) -> E, dst: array<E>, src: array<E>, start: nat, len: nat)
    returns (ok: bool)
    requires start + len <= dst.Length && start + len <= src.Length && dst != src
    modifies dst, driver
    ensures ok == Fate(old(driver.script), 0).Works? && driver.script == Rest(old(driver.script), 1)
    ensures forall k: nat :: k < dst.Length && !(start <= k < start + len) ==> dst[k] == old(dst[k])
    ensures ok ==> forall k: nat :: start <= k < start + len ==> dst[k] == add(old(dst[k]), src[k])
  {
    var fate := driver.Next();
    match fate {
      case Fails(junk) =>
        Spoil(dst, start, len, junk);
        return false;
      case Works =>
        for j := 0 to len
          invariant forall k: nat :: k < dst.Length ==>
                      dst[k] == if start <= k < start + j then add(old(dst[k]), src[k]) else old(dst[k])
          invariant driver.script == Rest(old(driver.script), 1)
        {
          dst[start + j] := add(dst[start + j], src[start + j]);
        }
        return true;
    }
  }

  /** All buffers of all ranks are different arrays. */
  ghost predicate Apart<E>(outs: seq<array<E>>, scratch: seq<array<E>>, originals: seq<array<E>>) {
    |outs| == |scratch| == |originals| &&
    (forall d: nat, e: nat :: d < e < |outs| ==>
     outs[d] != outs[e] && scratch[d] != scratch[e] && originals[d] != originals[e]) &&
    forall d: nat, e: nat :: d < |outs| && e < |outs| ==>
      outs[d] != scratch[e] && outs[d] != originals[e] && scratch[d] != originals[e]
  }

  ghost predicate Sized<E>(outs: seq<array<E>>, scratch: seq<array<E>>, originals: seq<array<E>>, count: nat) {
    |outs| == |scratch| == |originals| &&
    forall d: nat :: d < |outs| ==>
      outs[d].Length >= count && scratch[d].Length == count && originals[d].Length == count
  }

  /** The snapshots hold every rank's contribution. */
  ghost predicate Snapshot<E>(job: Job<E>, originals: seq<array<E>>, count: nat)
    reads originals
  {
    forall d: nat, k: nat :: d < |originals| && k < count && k < originals[d].Length ==>
      originals[d][k] == Given(job, d, k)
  }

  /** Runs one nonempty action on its destination's buffers. */
  method RunAction<E(==)>(driver: Driver<E>, ghost job: Job<E>, add: (E, E) -> E, a: Action, outs: seq<array<E>>,
                          scratch: seq<array<E>>, originals: seq<array<E>>, count: nat) returns (ok: bool)
    requires Apart(outs, scratch, originals) && Sized(outs, scratch, originals, count)
    requires a.source < |outs| && a.destination < |outs| && a.range.start + a.range.len <= count
    requires Snapshot(job, originals, count)
    modifies outs[a.destination], scratch[a.destination], driver
    ensures ok == Fate(old(driver.script), 0).Works? && driver.script == Rest(old(driver.script), 1)
    ensures forall k: nat :: count <= k < outs[a.destination].Length ==>
              outs[a.destination][k] == old(outs[a.destination][k])
    ensures ok ==> forall k: nat :: k < count ==>
              Cell(outs[a.destination][k], scratch[a.destination][k]) ==
              StepCell(job, add, old(Cell(outs[a.destination][k], scratch[a.destination][k])), a, a.destination, k)
  {
    var start, len := a.range.start, a.range.len;
    var out, inbox := outs[a.destination], scratch[a.destination];
    match a.op {
      case LocalCopy =>
        if a.source == a.destination {
          ok := Copy(driver, out, originals[a.source], start, len);
        } else {
          ok := Copy(driver, out, inbox, start, len);
        }
      case Transfer => ok := Copy(driver, inbox, originals[a.source], start, len);
      case ReduceSum => ok := AddInto(driver, add, out, inbox, start, len);
    }
  }

  /** The logical prefixes of the leases. */
  ghost function Contents<E>(leases: seq<Lease<E>>, count: nat): (r: seq<seq<E>>)
    requires forall l :: l in leases ==> l.cells.Length >= count
    reads set l | l in leases :: l.cells
    ensures |r| == |leases| && forall d :: 0 <= d < |leases| ==> r[d] == leases[d].cells[..count]
  {
    if |leases| == 0 then []
    else
      var n := |leases| - 1;
      assert forall l :: l in leases[..n] ==> l in leases;
      Contents(leases[..n], count) + [leases[n].cells[..count]]
  }

  function CellsOf<E>(leases: seq<Lease<E>>): (outs: seq<array<E>>)
    ensures |outs| == |leases| && forall d :: 0 <= d < |leases| ==> outs[d] == leases[d].cells
  {
    if |leases| == 0 then [] else CellsOf(leases[..|leases| - 1]) + [leases[|leases| - 1].cells]
  }

  datatype Trace = Trace(action: nat, op: ActionOp, device: nat, range: Range)

  /** The inspectable record of the first `k` actions. */
  function Traced(actions: seq<Action>, k: nat): seq<Trace>
    requires k <= |actions|
  {
    if k == 0 then []
    else
      var a := actions[k - 1];
      Traced(actions, k - 1) + if a.range.len == 0 then [] else [Trace(a.id, a.op, a.destination, a.range)]
  }

  /** The actions among the first `k` that call the driver, by number. */
  function Busy(actions: seq<Action>, k: nat): (ids: seq<nat>)
    requires k <= |actions|
  {
    if k == 0 then []
    else Busy(actions, k - 1) + if actions[k - 1].range.len == 0 then [] else [actions[k - 1].id]
  }

  lemma {:induction false} BusyGrows(actions: seq<Action>, k: nat, n: nat)
    requires k <= n <= |actions|
    ensures Busy(actions, k) <= Busy(actions, n)
    decreases n
  {
    if k < n {
      BusyGrows(actions, k, n - 1);
    }
  }

  /** The actions among the first `k` that must enable a pair not cached and not asked for before, by number. */
  function Asking(actions: seq<Action>, peers: set<(nat, nat)>, k: nat): seq<nat>
    requires k <= |actions|
  {
    if k == 0 then []
    else
      var a := actions[k - 1];
      var key := (a.source, a.destination);
      var asks := a.op == Transfer && a.range.len != 0 && key !in peers && !NeedsPeer(actions[..k - 1], key);
      Asking(actions, peers, k - 1) + if asks then [a.id] else []
  }

  lemma {:induction false} AskingGrows(actions: seq<Action>, peers: set<(nat, nat)>, k: nat, n: nat)
    requires k <= n <= |actions|
    ensures Asking(actions, peers, k) <= Asking(actions, peers, n)
    decreases n
  {
    if k < n {
      AskingGrows(actions, peers, k, n - 1);
    }
  }

  /** The call that an asking action makes. */
  lemma AskingNext<E>(script: seq<Outcome<E>>, actions: seq<Action>, peers: set<(nat, nat)>, i: nat)
    requires i < |actions| && |Asking(actions, peers, i + 1)| == |Asking(actions, peers, i)| + 1
    requires FirstFail(script, |Asking(actions, peers, i)|).None?
    ensures var done, asking := |Asking(actions, peers, i)|, Asking(actions, peers, |actions|);
            done < |asking| && asking[done] == actions[i].id &&
            Fate(Rest(script, done), 0) == Fate(script, done) &&
              Rest(Rest(script, done), 1) == Rest(script, done + 1) &&
            if Fate(script, done).Fails? then FirstFail(script, |asking|) == Some(done)
            else FirstFail(script, done + 1).None?
  {
    hide Asking, FirstFail, Rest;
    AskingGrows(actions, peers, i + 1, |actions|);
    AskingLast(actions, peers, i);
    NextCall(script, |Asking(actions, peers, |actions|)|, |Asking(actions, peers, i)|);
  }

  lemma AskingLast(actions: seq<Action>, peers: set<(nat, nat)>, i: nat)
    requires i < |actions| && |Asking(actions, peers, i + 1)| == |Asking(actions, peers, i)| + 1
    ensures Asking(actions, peers, i + 1)[|Asking(actions, peers, i)|] == actions[i].id
  {
  }

  /** The directed device pair a nonempty transfer needs. */
  predicate NeedsPeer(actions: seq<Action>, key: (nat, nat)) {
    exists i :: 0 <= i < |actions| && actions[i].op == Transfer && actions[i].range.len != 0 &&
                key == (actions[i].source, actions[i].destination)
  }

  function Zip<E>(out: seq<E>, inbox: seq<E>): (r: seq<Cell<E>>)
    requires |out| == |inbox|
    ensures |r| == |out| && forall k :: 0 <= k < |out| ==> r[k] == Cell(out[k], inbox[k])
  {
    if |out| == 0 then [] else Zip(out[..|out| - 1], inbox[..|out| - 1]) + [Cell(out[|out| - 1], inbox[|out| - 1])]
  }

  /** The output and inbox cells of every rank. */
  ghost function Cells<E>(outs: seq<array<E>>, scratch: seq<array<E>>, count: nat): (r: seq<seq<Cell<E>>>)
    requires |outs| == |scratch|
    requires forall d: nat :: d < |outs| ==> outs[d].Length >= count && scratch[d].Length == count
    reads outs, scratch
    ensures |r| == |outs|
    ensures forall d: nat :: d < |outs| ==> |r[d]| == count
    ensures forall d: nat, k: nat :: d < |outs| && k < count ==> r[d][k] == Cell(outs[d][k], scratch[d][k])
  {
    if |outs| == 0 then []
    else
      var n := |outs| - 1;
      Cells(outs[..n], scratch[..n], count) + [Zip(outs[n][..count], scratch[n][..])]
  }

  /** `now` holds what the actions make of the cells `start`. */
  ghost predicate Tracked<E>(job: Job<E>, add: (E, E) -> E, actions: seq<Action>, start: seq<seq<Cell<E>>>,
                             now: seq<seq<Cell<E>>>) {
    |now| == |start| && forall d: nat :: d < |start| ==> TrackedRow(job, add, actions, d, start[d], now[d])
  }

  ghost predicate TrackedRow<E>(job: Job<E>, add: (E, E) -> E, actions: seq<Action>, d: nat, start: seq<Cell<E>>,
                                now: seq<Cell<E>>) {
    |now| == |start| && forall k: nat :: k < |start| ==> now[k] == RunCell(job, add, start[k], actions, d, k)
  }

  lemma TrackedNone<E>(job: Job<E>, add: (E, E) -> E, start: seq<seq<Cell<E>>>)
    ensures Tracked(job, add, [], start, start)
  {
  }

  /** One more action, which changed its own destination's cells only. */
  lemma TrackedNext<E>(job: Job<E>, add: (E, E) -> E, actions: seq<Action>, a: Action, start: seq<seq<Cell<E>>>,
                       before: seq<seq<Cell<E>>>, now: seq<seq<Cell<E>>>)
    requires Tracked(job, add, actions, start, before) && |now| == |before| && a.destination < |now|
    requires forall d: nat :: d < |now| && d != a.destination ==> now[d] == before[d]
    requires |now[a.destination]| == |before[a.destination]|
    requires forall k: nat :: k < |now[a.destination]| ==>
               now[a.destination][k] == StepCell(job, add, before[a.destination][k], a, a.destination, k)
    ensures Tracked(job, add, actions + [a], start, now)
  {
    hide RunCell, StepCell;
    forall d: nat | d < |start|
      ensures TrackedRow(job, add, actions + [a], d, start[d], now[d])
    {
      assert TrackedRow(job, add, actions, d, start[d], before[d]);
      forall k: nat | k < |start[d]|
        ensures now[d][k] == RunCell(job, add, start[d][k], actions + [a], d, k)
      {
        RunPush(job, add, start[d][k], actions, a, d, k);
        if d != a.destination {
          Untouched(job, add, before[d][k], a, d, k);
        }
      }
    }
  }

  /** An action over an empty range touches nothing. */
  lemma TrackedSkip<E>(job: Job<E>, add: (E, E) -> E, actions: seq<Action>, a: Action, start: seq<seq<Cell<E>>>,
                       now: seq<seq<Cell<E>>>)
    requires Tracked(job, add, actions, start, now) && a.range.len == 0 && a.destination < |now|
    ensures Tracked(job, add, actions + [a], start, now)
  {
    hide RunCell;
    assert TrackedRow(job, add, actions, a.destination, start[a.destination], now[a.destination]);
    TrackedNext(job, add, actions, a, start, now, now);
  }

  /** Runs action `i` after those before it. */
  method RunNext<E(==)>(driver: Driver<E>, ghost job: Job<E>, add: (E, E) -> E, actions: seq<Action>, i: nat,
                        ghost start: seq<seq<Cell<E>>>, outs: seq<array<E>>, scratch: seq<array<E>>,
                        originals: seq<array<E>>, count: nat) returns (ok: bool)
    requires Apart(outs, scratch, originals) && Sized(outs, scratch, originals, count)
    requires Snapshot(job, originals, count)
    requires i < |actions| && actions[i].source < |outs| && actions[i].destination < |outs|
    requires actions[i].range.start + actions[i].range.len <= count
    requires Tracked(job, add, actions[..i], start, Cells(outs, scratch, count))
    modifies outs, scratch, driver
    ensures ok == Fate(old(driver.script), 0).Works? && driver.script == Rest(old(driver.script), 1)
    ensures forall d: nat, k: nat :: d < |outs| && count <= k < outs[d].Length ==> outs[d][k] == old(outs[d][k])
    ensures Snapshot(job, originals, count)
    ensures ok ==> Tracked(job, add, actions[..i + 1], start, Cells(outs, scratch, count))
  {
    hide RunCell, StepCell, Given, Tracked, Cells, Rest, Fate, Snapshot;
    ghost var before := Cells(outs, scratch, count);
    ok := RunAction(driver, job, add, actions[i], outs, scratch, originals, count);
    if ok {
      assert actions[..i + 1] == actions[..i] + [actions[i]];
      TrackedNext(job, add, actions[..i], actions[i], start, before, Cells(outs, scratch, count));
    }
  }

  /** Runs every action in plan order; on failure the snapshots still hold what the ranks contributed. */
  method RunOnDevices<E(==)>(driver: Driver<E>, ghost peers: set<(nat, nat)>, ghost job: Job<E>, add: (E, E) -> E,
                        actions: seq<Action>,
                           outs: seq<array<E>>, scratch: seq<array<E>>, originals: seq<array<E>>, count: nat)
    returns (failed: Option<nat>, trace: seq<Trace>)
    requires Apart(outs, scratch, originals) && Sized(outs, scratch, originals, count)
    requires job.request.ranks == |outs| > 0 && |job.request.lengths| == |outs| && AllPlaced(job.request, actions)
    requires TotalOf(job.request) <= count && Snapshot(job, originals, count)
    requires forall key :: NeedsPeer(actions, key) ==> key in peers
    modifies outs, scratch, driver
    ensures var busy := Busy(actions, |actions|);
            failed == match FirstFail(old(driver.script), |busy|) case None => None case Some(f) => Some(busy[f])
    ensures driver.script == Rest(old(driver.script), Calls(old(driver.script), |Busy(actions, |actions|)|))
    ensures forall d: nat, k: nat :: d < |outs| && count <= k < outs[d].Length ==> outs[d][k] == old(outs[d][k])
    ensures Snapshot(job, originals, count)
    ensures failed.None? ==> trace == Traced(actions, |actions|) &&
                             Tracked(job, add, actions, old(Cells(outs, scratch, count)), Cells(outs, scratch, count))
  {
    hide RunCell, StepCell, Given, AllPlaced, Placed, Tracked, Cells, FirstFail, Rest, Fate, NeedsPeer, Snapshot, Busy;
    trace := [];
    var completed := seq(|actions|, _ => false);
    ghost var start := Cells(outs, scratch, count);
    TrackedNone(job, add, start);
    NoCalls(driver.script);
    NoneBusy(actions);
    assert actions[..0] == [];
    for i := 0 to |actions|
      invariant |completed| == |actions| && forall j :: 0 <= j < i ==> completed[j]
      invariant Snapshot(job, originals, count)
      invariant forall d: nat, k: nat :: d < |outs| && count <= k < outs[d].Length ==> outs[d][k] == old(outs[d][k])
      invariant Tracked(job, add, actions[..i], start, Cells(outs, scratch, count)) && trace == Traced(actions, i)
      invariant var done := |Busy(actions, i)|;
                FirstFail(old(driver.script), done).None? && driver.script == Rest(old(driver.script), done)
    {
      var a := actions[i];
      PlacedFacts(job.request, actions, i);
      PlacedInside(job.request, a, i);
      // The planner numbers actions in order, so what an action depends on is always complete.
      assert forall e :: e in a.dependsOn ==> e < a.id && completed[e];
      assert actions[..i + 1] == actions[..i] + [a];
      if a.range.len != 0 {
        if a.op.Transfer? {
          NeededPeer(actions, i);
          assert (a.source, a.destination) in peers;
        }
        BusyNext(old(driver.script), actions, i);
        var ok := RunNext(driver, job, add, actions, i, start, outs, scratch, originals, count);
        if !ok {
          return Some(a.id), trace;
        }
        trace := trace + [Trace(a.id, a.op, a.destination, a.range)];
      } else {
        IdleNext(actions, i);
        TrackedSkip(job, add, actions[..i], a, start, Cells(outs, scratch, count));
      }
      completed := completed[a.id := true];
    }
    assert actions[..|actions|] == actions;
    failed := None;
  }

  lemma NeededPeer(actions: seq<Action>, i: nat)
    requires i < |actions| && actions[i].op == Transfer && actions[i].range.len != 0
    ensures NeedsPeer(actions, (actions[i].source, actions[i].destination))
  {
  }

  lemma NoneBusy(actions: seq<Action>)
    ensures Busy(actions, 0) == []
  {
  }

  lemma IdleNext(actions: seq<Action>, i: nat)
    requires i < |actions| && actions[i].range.len == 0
    ensures |Busy(actions, i + 1)| == |Busy(actions, i)|
  {
  }

  /** The call that a nonempty action makes. */
  lemma BusyNext<E>(script: seq<Outcome<E>>, actions: seq<Action>, i: nat)
    requires i < |actions| && actions[i].range.len != 0 && FirstFail(script, |Busy(actions, i)|).None?
    ensures var done, busy := |Busy(actions, i)|, Busy(actions, |actions|);
            |Busy(actions, i + 1)| == done + 1 && done < |busy| && busy[done] == actions[i].id &&
            Fate(Rest(script, done), 0) == Fate(script, done) &&
              Rest(Rest(script, done), 1) == Rest(script, done + 1) &&
            if Fate(script, done).Fails? then FirstFail(script, |busy|) == Some(done)
              else FirstFail(script, done + 1).None?
  {
    BusyGrows(actions, i + 1, |actions|);
    NextCall(script, |Busy(actions, |actions|)|, |Busy(actions, i)|);
  }

  lemma PlacedInside(r: Request, a: Action, i: nat)
    requires r.ranks > 0 && |r.lengths| == r.ranks && Placed(r, a, i)
    ensures a.range.start + a.range.len <= TotalOf(r)
  {
  }

  /** Copies the prefixes of the leases between two rows of buffers, stopping at the first failing call. */
  method CopyAll<E(==)>(driver: Driver<E>, targets: seq<array<E>>, sources: seq<array<E>>, count: nat)
    returns (ok: bool)
    requires |targets| == |sources|
    requires forall d: nat :: d < |targets| ==> targets[d].Length >= count && sources[d].Length >= count
    requires forall d: nat, e: nat :: d < |targets| && e < |targets| ==> targets[d] != sources[e]
    requires forall d: nat, e: nat :: d < e < |targets| ==> targets[d] != targets[e]
    modifies targets, driver
    ensures ok == FirstFail(old(driver.script), |targets|).None?
    ensures driver.script == Rest(old(driver.script), Calls(old(driver.script), |targets|))
    ensures forall d: nat, k: nat :: d < |targets| && count <= k < targets[d].Length ==>
              targets[d][k] == old(targets[d][k])
    ensures ok ==> forall d: nat, k: nat :: d < |targets| && k < count ==> targets[d][k] == sources[d][k]
  {
    for i := 0 to |targets|
      invariant forall d: nat, k: nat :: d < |targets| && count <= k < targets[d].Length ==>
                  targets[d][k] == old(targets[d][k])
      invariant forall d: nat, k: nat :: d < i && k < count ==> targets[d][k] == sources[d][k]
      invariant FirstFail(old(driver.script), i).None? && driver.script == Rest(old(driver.script), i)
    {
      NextCall(old(driver.script), |targets|, i);
      var copied := Copy(driver, targets[i], sources[i], 0, count);
      if !copied {
        return false;
      }
    }
    return true;
  }

  /** One workspace buffer per device, of unknown content. */
  method AllocateAll<E(==)>(driver: Driver<E>, n: nat, count: nat, junk: E) returns (buffers: Option<seq<array<E>>>)
    modifies driver
    ensures buffers.Some? == FirstFail(old(driver.script), n).None?
    ensures driver.script == Rest(old(driver.script), Calls(old(driver.script), n))
    ensures buffers.Some? ==>
              |buffers.value| == n &&
              (forall d: nat :: d < n ==> fresh(buffers.value[d]) && buffers.value[d].Length == count) &&
              forall d: nat, e: nat :: d < e < n ==> buffers.value[d] != buffers.value[e]
  {
    var all: seq<array<E>> := [];
    for i := 0 to n
      invariant |all| == i && forall d: nat :: d < i ==> fresh(all[d]) && all[d].Length == count
      invariant forall d: nat, e: nat :: d < e < i ==> all[d] != all[e]
      invariant FirstFail(old(driver.script), i).None? && driver.script == Rest(old(driver.script), i)
    {
      NextCall(old(driver.script), n, i);
      var fate := driver.Next();
      if fate.Fails? {
        return None;
      }
      var buffer := new E[count](_ => junk);
      all := all + [buffer];
    }
    return Some(all);
  }

  // What a script of fates makes of a reduction

  function Reported<T>(r: Result<T, DeviceError>): Option<DeviceError> {
    match r case Ok(_) => None case Err(e) => Some(e)
  }

  /**
   * The fault of a reduction whose peers are enabled: four calls a device first, then the busy actions, then the
   * rollback.
   */
  function ReduceFault<E>(script: seq<Outcome<E>>, actions: seq<Action>, ranks: nat): Option<DeviceError> {
    if FirstFail(script, 4 * ranks).Some? then Some(SetupFailed)
    else
      var running, busy := Rest(script, 4 * ranks), Busy(actions, |actions|);
      match FirstFail(running, |busy|)
      case None => None
      case Some(f) =>
        if FirstFail(Rest(running, f + 1), 2 * ranks).Some? then Some(RollbackFailed) else Some(ActionFailed(busy[f]))
  }

  lemma NoPeerFault<E>(script: seq<Outcome<E>>, actions: seq<Action>, ranks: nat)
    ensures var fault := ReduceFault(script, actions, ranks); fault.Some? ==> !fault.value.PeerFailed?
  {
  }

  /** The fault of an admissible reduction: the missing peers are enabled before anything else. */
  function Fault<E>(script: seq<Outcome<E>>, peers: set<(nat, nat)>, actions: seq<Action>,
                    ranks: nat): Option<DeviceError> {
    var asking := Asking(actions, peers, |actions|);
    match FirstFail(script, |asking|)
    case Some(f) => Some(PeerFailed(asking[f]))
    case None => ReduceFault(Rest(script, |asking|), actions, ranks)
  }

  /** A batch of `n` calls and then one of `m`. */
  lemma MoreCalls<E>(script: seq<Outcome<E>>, n: nat, m: nat)
    ensures FirstFail(script, n + m).None? <==> FirstFail(script, n).None? && FirstFail(Rest(script, n), m).None?
    ensures FirstFail(script, n).None? ==> Calls(script, n) == n
    ensures Rest(Rest(script, n), m) == Rest(script, n + m)
  {
    hide Rest;
    RestAgain(script, n, m);
    if FirstFail(script, n).None? {
      FirstFailSplit(script, n, m);
    } else {
      FailsStill(script, n, m);
    }
  }

  lemma {:induction false} FailsStill<E>(script: seq<Outcome<E>>, n: nat, m: nat)
    requires FirstFail(script, n).Some?
    ensures FirstFail(script, n + m).Some?
    decreases m
  {
    if m > 0 {
      FailsStill(script, n, m - 1);
    }
  }

  lemma SetUpCalls<E>(script: seq<Outcome<E>>, n: nat)
    ensures var s1 := Rest(script, n); var s2 := Rest(s1, n); var s3 := Rest(s2, n);
            Rest(s3, n) == Rest(script, 4 * n) &&
            (FirstFail(script, 4 * n).None? <==>
             FirstFail(script, n).None? && FirstFail(s1, n).None? && FirstFail(s2, n).None? &&
               FirstFail(s3, n).None?) &&
            (FirstFail(script, n).None? ==> Calls(script, n) == n) && (FirstFail(s1, n).None? ==> Calls(s1, n) == n) &&
            (FirstFail(s2, n).None? ==> Calls(s2, n) == n) && (FirstFail(s3, n).None? ==> Calls(s3, n) == n)
  {
    hide FirstFail, Rest, Calls;
    MoreCalls(script, n, 3 * n);
    MoreCalls(Rest(script, n), n, 2 * n);
    MoreCalls(Rest(Rest(script, n), n), n, n);
    MoreCalls(Rest(Rest(Rest(script, n), n), n), n, 0);
    MoreCalls(script, n, n);
    MoreCalls(script, 2 * n, n);
    MoreCalls(script, 3 * n, n);
  }

  lemma RollBackCalls<E>(script: seq<Outcome<E>>, n: nat)
    ensures FirstFail(script, n).Some? ==> Calls(script, n) == FirstFail(script, n).value + 1
  {
  }

  /** A reduction that got past its checks never reports one of them. */
  lemma FaultIsLate<E>(script: seq<Outcome<E>>, peers: set<(nat, nat)>, actions: seq<Action>, ranks: nat)
    ensures var fault := Fault(script, peers, actions, ranks);
            fault.Some? ==> fault.value !in {BadPlan, GroupMismatch, LeaseTooSmall, OwnerMismatch}
  {
  }

  /** No call fails. */
  ghost predicate Reliable<E>(script: seq<Outcome<E>>) {
    forall i :: 0 <= i < |script| ==> script[i].Works?
  }

  /** At most one call fails. */
  ghost predicate OneSlip<E>(script: seq<Outcome<E>>) {
    forall i, j :: 0 <= i < |script| && 0 <= j < |script| && script[i].Fails? && script[j].Fails? ==> i == j
  }

  /** Call `i` fails. */
  predicate Slips<E>(script: seq<Outcome<E>>, i: nat) {
    i < |script| && script[i].Fails?
  }

  lemma SlipsLater<E>(script: seq<Outcome<E>>, n: nat, i: nat)
    requires Fate(Rest(script, n), i).Fails?
    ensures Slips(script, n + i)
  {
  }

  /** A reduction fails only when a driver call does; it blames the rollback only when two calls do. */
  lemma FaultNeedsSlips<E>(script: seq<Outcome<E>>, peers: set<(nat, nat)>, actions: seq<Action>, ranks: nat)
    ensures Reliable(script) ==> Fault(script, peers, actions, ranks).None?
    ensures OneSlip(script) ==> Fault(script, peers, actions, ranks) != Some(RollbackFailed)
  {
    hide Rest, Asking, Busy;
    var asked := |Asking(actions, peers, |actions|)|;
    var s := Rest(script, asked);
    var busy := |Busy(actions, |actions|)|;
    if FirstFail(script, asked).None? {
      ReduceFaultNeedsSlips(s, actions, ranks);
      assert Reliable(script) ==> Reliable(s) by {
        RestReliable(script, asked);
      }
      assert OneSlip(script) ==> OneSlip(s) by {
        RestOneSlip(script, asked);
      }
    }
  }

  lemma RestReliable<E>(script: seq<Outcome<E>>, n: nat)
    ensures Reliable(script) ==> Reliable(Rest(script, n))
  {
  }

  lemma RestOneSlip<E>(script: seq<Outcome<E>>, n: nat)
    ensures OneSlip(script) ==> OneSlip(Rest(script, n))
  {
    var rest := Rest(script, n);
    assert forall i :: 0 <= i < |rest| ==> rest[i] == script[n + i];
  }

  lemma ReduceFaultNeedsSlips<E>(script: seq<Outcome<E>>, actions: seq<Action>, ranks: nat)
    ensures Reliable(script) ==> ReduceFault(script, actions, ranks).None?
    ensures OneSlip(script) ==> ReduceFault(script, actions, ranks) != Some(RollbackFailed)
  {
    hide Busy, Rest;
    var running, busy := Rest(script, 4 * ranks), |Busy(actions, |actions|)|;
    RestReliable(script, 4 * ranks);
    match FirstFail(running, busy) {
      case None =>
      case Some(f) =>
        SlipsLater(script, 4 * ranks, f);
        var back := Rest(running, f + 1);
        RestAgain(script, 4 * ranks, f + 1);
        if FirstFail(back, 2 * ranks).Some? {
          SlipsLater(script, 4 * ranks + f + 1, FirstFail(back, 2 * ranks).value);
        }
    }
  }

  /** Call `c` is the first to fail. */
  ghost predicate FirstSlip<E>(script: seq<Outcome<E>>, c: nat) {
    Slips(script, c) && forall e: nat :: e < c ==> !Slips(script, e)
  }

  /** The reported fault is a true account of which calls failed. */
  ghost predicate Truthful<E>(script: seq<Outcome<E>>, asking: seq<nat>, busy: seq<nat>, ranks: nat,
                              fault: Option<DeviceError>) {
    var begun := |asking| + 4 * ranks;
    match fault
    case None => forall c: nat :: c < begun + |busy| ==> !Slips(script, c)
    case Some(PeerFailed(id)) => exists c: nat :: c < |asking| && asking[c] == id && FirstSlip(script, c)
    case Some(SetupFailed) => exists c: nat :: |asking| <= c < begun && FirstSlip(script, c)
    case Some(ActionFailed(id)) =>
      (exists c: nat :: begun <= c < begun + |busy| && busy[c - begun] == id && FirstSlip(script, c) &&
                        forall e: nat :: c < e <= c + 2 * ranks ==> !Slips(script, e))
    case Some(RollbackFailed) =>
      (exists c: nat, e: nat ::
       begun <= c < begun + |busy| && c < e <= c + 2 * ranks && FirstSlip(script, c) && Slips(script, e))
    case _ => false
  }

  lemma FailingCall<E>(script: seq<Outcome<E>>, n: nat, m: nat)
    ensures var rest := Rest(script, n);
            match FirstFail(rest, m)
            case None => forall c: nat :: n <= c < n + m ==> !Slips(script, c)
            case Some(f) => f < m && Slips(script, n + f) && forall c: nat :: n <= c < n + f ==> !Slips(script, c)
  {
    forall c: nat | n <= c
      ensures Slips(script, c) == Fate(Rest(script, n), c - n).Fails?
    {
      RestAgain(script, n, c - n);
    }
  }

  /** What is reported is true: the action named is one whose call failed, and a failed rollback is a second failure. */
  lemma FaultTruthful<E>(script: seq<Outcome<E>>, peers: set<(nat, nat)>, actions: seq<Action>, ranks: nat)
    ensures Truthful(script, Asking(actions, peers, |actions|), Busy(actions, |actions|), ranks,
                     Fault(script, peers, actions, ranks))
  {
    hide Rest, Asking, Busy, Slips, FirstFail, ReduceFault, Truthful;
    var asking, busy := Asking(actions, peers, |actions|), Busy(actions, |actions|);
    NoCalls(script);
    FailingCall(script, 0, |asking|);
    match FirstFail(script, |asking|)
    case Some(f) => PeerTruthful(script, asking, busy, ranks, f);
    case None => RunTruthful(script, asking, actions, ranks);
  }

  lemma PeerTruthful<E>(script: seq<Outcome<E>>, asking: seq<nat>, busy: seq<nat>, ranks: nat, f: nat)
    requires f < |asking| && FirstSlip(script, f)
    ensures Truthful(script, asking, busy, ranks, Some(PeerFailed(asking[f])))
  {
    hide FirstSlip;
  }

  lemma RunTruthful<E>(script: seq<Outcome<E>>, asking: seq<nat>, actions: seq<Action>, ranks: nat)
    requires forall c: nat :: c < |asking| ==> !Slips(script, c)
    ensures Truthful(script, asking, Busy(actions, |actions|), ranks,
                     ReduceFault(Rest(script, |asking|), actions, ranks))
  {
    hide Rest, Busy, Slips, FirstFail, Truthful;
    var asked, busy := |asking|, Busy(actions, |actions|);
    FailingCall(script, asked, 4 * ranks);
    match FirstFail(Rest(script, asked), 4 * ranks) {
      case Some(f) => SetUpTruthful(script, asking, busy, ranks, asked + f);
      case None =>
        RestAgain(script, asked, 4 * ranks);
        ActionsTruthful(script, asking, busy, ranks);
    }
  }

  lemma ActionsTruthful<E>(script: seq<Outcome<E>>, asking: seq<nat>, busy: seq<nat>, ranks: nat)
    requires forall c: nat :: c < |asking| ==> !Slips(script, c)
    requires forall c: nat :: |asking| <= c < |asking| + 4 * ranks ==> !Slips(script, c)
    ensures var running := Rest(script, |asking| + 4 * ranks);
            match FirstFail(running, |busy|)
            case None => Truthful(script, asking, busy, ranks, None)
            case Some(f) =>
              var back := FirstFail(Rest(running, f + 1), 2 * ranks);
              Truthful(script, asking, busy, ranks, Some(if back.Some? then RollbackFailed else ActionFailed(busy[f])))
  {
    hide Rest, Slips, FirstFail, Truthful;
    var begun := |asking| + 4 * ranks;
    FailingCall(script, begun, |busy|);
    match FirstFail(Rest(script, begun), |busy|)
    case None => NoneTruthful(script, asking, busy, ranks);
    case Some(f) => StepTruthful(script, asking, busy, ranks, f);
  }

  lemma SetUpTruthful<E>(script: seq<Outcome<E>>, asking: seq<nat>, busy: seq<nat>, ranks: nat, c: nat)
    requires |asking| <= c < |asking| + 4 * ranks && FirstSlip(script, c)
    ensures Truthful(script, asking, busy, ranks, Some(SetupFailed))
  {
    hide FirstSlip;
  }

  lemma NoneTruthful<E>(script: seq<Outcome<E>>, asking: seq<nat>, busy: seq<nat>, ranks: nat)
    requires forall c: nat :: c < |asking| + 4 * ranks + |busy| ==> !Slips(script, c)
    ensures Truthful(script, asking, busy, ranks, None)
  {
  }

  lemma StepTruthful<E>(script: seq<Outcome<E>>, asking: seq<nat>, busy: seq<nat>, ranks: nat, f: nat)
    requires var begun := |asking| + 4 * ranks; f < |busy| && FirstSlip(script, begun + f)
    ensures var back := FirstFail(Rest(Rest(script, |asking| + 4 * ranks), f + 1), 2 * ranks);
            Truthful(script, asking, busy, ranks, Some(if back.Some? then RollbackFailed else ActionFailed(busy[f])))
  {
    hide Rest, Slips, FirstFail;
    var begun := |asking| + 4 * ranks;
    RestAgain(script, begun, f + 1);
    FailingCall(script, begun + f + 1, 2 * ranks);
    assert busy[begun + f - begun] == busy[f];
  }

  // The calls a reduction makes

  /** Action `i` is the first to need a device pair not enabled before. */
  ghost predicate Asks(actions: seq<Action>, peers: set<(nat, nat)>, i: nat) {
    i < |actions| && actions[i].op == Transfer && actions[i].range.len != 0 &&
    (actions[i].source, actions[i].destination) !in peers &&
    forall j :: 0 <= j < i && actions[j].op == Transfer && actions[j].range.len != 0 ==>
      (actions[j].source, actions[j].destination) != (actions[i].source, actions[i].destination)
  }

  /** One enable call for every missing pair, at its first transfer, in plan order. */
  lemma {:induction false} AskingIs(actions: seq<Action>, peers: set<(nat, nat)>, k: nat)
    requires k <= |actions| && forall i :: 0 <= i < |actions| ==> actions[i].id == i
    ensures var ids := Asking(actions, peers, k);
            (forall i: nat :: i in ids <==> i < k && Asks(actions, peers, i)) &&
            forall m, n :: 0 <= m < n < |ids| ==> ids[m] < ids[n]
  {
    hide Asking, Asks;
    if k > 0 {
      AskingIs(actions, peers, k - 1);
      AskingOne(actions, peers, k - 1);
      var before, ids := Asking(actions, peers, k - 1), Asking(actions, peers, k);
      forall m, n | 0 <= m < n < |ids|
        ensures ids[m] < ids[n]
      {
        assert m < |before| ==> ids[m] in before;
      }
    } else {
      AskingNone(actions, peers);
    }
  }

  lemma AskingNone(actions: seq<Action>, peers: set<(nat, nat)>)
    ensures Asking(actions, peers, 0) == []
  {
  }

  lemma AskingOne(actions: seq<Action>, peers: set<(nat, nat)>, i: nat)
    requires i < |actions| && forall j :: 0 <= j < |actions| ==> actions[j].id == j
    ensures Asking(actions, peers, i + 1) == Asking(actions, peers, i) + if Asks(actions, peers, i) then [i] else []
  {
    var key := (actions[i].source, actions[i].destination);
    assert forall j :: 0 <= j < i ==> actions[..i][j] == actions[j];
    assert NeedsPeer(actions[..i], key) <==>
           exists j :: 0 <= j < i && actions[j].op == Transfer && actions[j].range.len != 0 &&
                       key == (actions[j].source, actions[j].destination);
  }

  lemma {:induction false} SameRange(n: nat, total: nat, k: nat)
    requires k <= n
    ensures forall a :: a in ReduceTo(n, Whole(total, n), k) ==> a.range == Range(0, total)
  {
    if k > 0 {
      SameRange(n, total, k - 1);
      RowRange(ReduceTo(n, Whole(total, n), k - 1), k - 1, Range(0, total), n);
    }
  }

  lemma {:induction false} RowRange(actions: seq<Action>, dst: nat, range: Range, k: nat)
    requires forall a :: a in actions ==> a.range == range
    ensures forall a :: a in ReduceRow(actions, dst, range, k) ==> a.range == range
  {
    if k > 0 {
      RowRange(actions, dst, range, k - 1);
    }
  }

  lemma {:induction false} AllCalled(actions: seq<Action>, k: nat)
    requires k <= |actions|
    requires forall i :: 0 <= i < |actions| ==> actions[i].id == i && actions[i].range.len != 0
    ensures |Busy(actions, k)| == |Traced(actions, k)| == k
    ensures forall i :: 0 <= i < k ==>
              var a := actions[i];
              Busy(actions, k)[i] == i && Traced(actions, k)[i] == Trace(i, a.op, a.destination, a.range)
  {
    if k > 0 {
      AllCalled(actions, k - 1);
    }
  }

  /** With something to reduce, every action of an all-reduce makes its own driver call and leaves its own record. */
  lemma EveryActionCalls(plan: Plan)
    requires plan.request.ranks > 0 && Canonical(plan.request) == Ok(plan) && plan.request.kind.AllReduce?
    requires plan.request.lengths[0] > 0
    ensures |Busy(plan.actions, |plan.actions|)| == |Traced(plan.actions, |plan.actions|)| == |plan.actions|
    ensures forall i :: 0 <= i < |plan.actions| ==>
              var a := plan.actions[i];
              Busy(plan.actions, |plan.actions|)[i] == i &&
              Traced(plan.actions, |plan.actions|)[i] ==
                Trace(i, a.op, a.destination, Range(0, plan.request.lengths[0]))
  {
    hide ReduceTo, Busy, Traced;
    var n, total := plan.request.ranks, plan.request.lengths[0];
    PlanIsPlaced(plan);
    SameRange(n, total, n);
    assert forall i :: 0 <= i < |plan.actions| ==> plan.actions[i] in plan.actions;
    AllCalled(plan.actions, |plan.actions|);
  }

  /** A fixed group of devices; a peer pair once enabled stays enabled. */
  class DeviceGroup<E(==)> {
    const ranks: nat
    var peers: set<(nat, nat)>

    constructor (ranks: nat)
      ensures this.ranks == ranks && peers == {}
    {
      this.ranks, peers := ranks, {};
    }

    /** Enables every pair the plan's transfers need, or leaves the cache as it was. */
    method EnsurePeers(driver: Driver<E>, actions: seq<Action>) returns (failed: Option<nat>)
      modifies this`peers, driver
      ensures var asking := Asking(actions, old(peers), |actions|);
              failed == match FirstFail(old(driver.script), |asking|) case None => None case Some(f) => Some(asking[f])
      ensures driver.script == Rest(old(driver.script),
                                    Calls(old(driver.script), |Asking(actions, old(peers), |actions|)|))
      ensures failed.Some? ==> peers == old(peers)
      ensures failed.None? ==> forall key :: key in peers <==> key in old(peers) || NeedsPeer(actions, key)
    {
      var acquired: set<(nat, nat)> := {};
      for i := 0 to |actions|
        invariant peers == old(peers)
        invariant forall key :: key in acquired ==> NeedsPeer(actions, key) && NeedsPeer(actions[..i], key)
        invariant var done := |Asking(actions, peers, i)|;
                  FirstFail(old(driver.script), done).None? && driver.script == Rest(old(driver.script), done)
        invariant forall key :: NeedsPeer(actions[..i], key) ==> key in peers || key in acquired
      {
        var a := actions[i];
        NeedsNext(actions, i);
        if a.op != Transfer || a.range.len == 0 {
          continue;
        }
        var key := (a.source, a.destination);
        if key !in peers && key !in acquired {
          AskingNext(old(driver.script), actions, peers, i);
          var fate := driver.Next();
          if fate.Fails? {
            return Some(a.id);
          }
          acquired := acquired + {key};
        }
      }
      assert actions[..|actions|] == actions;
      peers := peers + acquired;
      return None;
    }

    /** A plan and leases this group can run. */
    ghost predicate Admissible(plan: Plan, leases: seq<Lease<E>>) {
      plan.request.ranks > 0 && Canonical(plan.request) == Ok(plan) && plan.request.kind.AllReduce? &&
      plan.request.ranks == ranks == |leases| &&
      (forall l :: l in leases ==> l.cells.Length >= TotalOf(plan.request)) &&
      forall d: nat :: d < |leases| ==> leases[d].owner == d
    }

    /** What a refusal before any device work says of the request; an earlier check that fails is said instead. */
    ghost predicate Blamed(plan: Plan, leases: seq<Lease<E>>, e: DeviceError)
      requires plan.request.ranks > 0
    {
      var grouped := plan.request.kind.AllReduce? && plan.request.ranks == ranks == |leases|;
      if Canonical(plan.request) != Ok(plan) then e == BadPlan
      else if !grouped then e == GroupMismatch
      else if exists d: nat :: d < |leases| && leases[d].cells.Length < TotalOf(plan.request) then e == LeaseTooSmall
      else e == OwnerMismatch && exists d: nat :: d < |leases| && leases[d].owner != d
    }

    /** The cache holds what it held and every pair the transfers need. */
    ghost predicate Enabled(before: set<(nat, nat)>, after: set<(nat, nat)>, actions: seq<Action>) {
      forall key :: key in after <==> key in before || NeedsPeer(actions, key)
    }

    /** The checks before any device work. */
    method Check(plan: Plan, leases: seq<Lease<E>>) returns (refusal: Option<DeviceError>)
      requires plan.request.ranks > 0
      ensures refusal.None? <==> Admissible(plan, leases)
      ensures refusal.Some? ==> refusal.value in {BadPlan, GroupMismatch, LeaseTooSmall, OwnerMismatch}
      ensures refusal.Some? ==> Blamed(plan, leases, refusal.value)
    {
      hide ActionsOf, OutputLengths, Chunks;
      var canonical := MakePlan(plan.request);
      if canonical.Err? || canonical.value != plan {
        return Some(BadPlan);
      }
      if !plan.request.kind.AllReduce? || plan.request.ranks != ranks || |leases| != ranks {
        return Some(GroupMismatch);
      }
      var count := plan.request.lengths[0];
      if exists i :: 0 <= i < |leases| && leases[i].cells.Length < count {
        return Some(LeaseTooSmall);
      }
      if exists i :: 0 <= i < |leases| && leases[i].owner != i {
        return Some(OwnerMismatch);
      }
      return None;
    }

    /** A driver call on every device with no effect on any buffer. */
    method OnEvery(driver: Driver<E>) returns (ok: bool)
      modifies driver
      ensures ok == FirstFail(old(driver.script), ranks).None?
      ensures driver.script == Rest(old(driver.script), Calls(old(driver.script), ranks))
    {
      for i := 0 to ranks
        invariant FirstFail(old(driver.script), i).None? && driver.script == Rest(old(driver.script), i)
      {
        NextCall(old(driver.script), ranks, i);
        var fate := driver.Next();
        if fate.Fails? {
          return false;
        }
      }
      return true;
    }

    /**
     * Reduces the leases in place. On success every lease prefix is what the in-memory executor would have
     * returned; on failure every lease is exactly as before, unless the rollback's own calls fail too.
     */
    method AllReduceSum(driver: Driver<E>, plan: Plan, leases: seq<Lease<E>>, add: (E, E) -> E, zero: E, junk: E)
      returns (r: Result<seq<Trace>, DeviceError>)
      requires plan.request.ranks > 0
      requires forall l, m :: l in leases && m in leases && l != m ==> l.cells != m.cells
      modifies this`peers, driver, set l | l in leases :: l.cells
      ensures r.Ok? ==>
                Admissible(plan, leases) && var count := TotalOf(plan.request);
                IsOutcome(plan, Job(plan.request, old(Contents(leases, count)), zero), add, Contents(leases, count)) &&
                r.value == if count == 0 || ranks == 1 then [] else Traced(plan.actions, |plan.actions|)
      ensures r.Err? && r.error in {BadPlan, GroupMismatch, LeaseTooSmall, OwnerMismatch} <==> !Admissible(plan, leases)
      ensures !Admissible(plan, leases) ==>
                Blamed(plan, leases, r.error) && driver.script == old(driver.script) && peers == old(peers)
      ensures r.Ok? && (TotalOf(plan.request) == 0 || ranks == 1) ==>
                driver.script == old(driver.script) && peers == old(peers)
      ensures r.Ok? && TotalOf(plan.request) > 0 && ranks > 1 ==> Enabled(old(peers), peers, plan.actions)
      ensures r.Err? && r.error.PeerFailed? ==> peers == old(peers)
      ensures Admissible(plan, leases) ==>
                Reported(r) == if TotalOf(plan.request) == 0 || ranks == 1 then None
                               else Fault(old(driver.script), old(peers), plan.actions, ranks)
      ensures Admissible(plan, leases) && Reliable(old(driver.script)) ==> r.Ok?
      ensures r.Err? && (r.error != RollbackFailed || OneSlip(old(driver.script))) ==>
                forall d: nat, k: nat :: d < |leases| && k < leases[d].cells.Length ==>
                  leases[d].cells[k] == old(leases[d].cells[k])
      ensures Admissible(plan, leases) ==>
                forall d: nat, k: nat :: d < |leases| && TotalOf(plan.request) <= k < leases[d].cells.Length ==>
                  leases[d].cells[k] == old(leases[d].cells[k])
    {
      var refusal := Check(plan, leases);
      if refusal.Some? {
        return Err(refusal.value);
      }
      hide Admissible, Canonical, IsOutcome, Contents, Fault, Reliable, OneSlip, Traced, Blamed, Enabled;
      r := Launch(driver, plan, leases, add, zero, junk);
    }

    /** An admissible reduction; with nothing to reduce it makes no driver call. */
    method Launch(driver: Driver<E>, plan: Plan, leases: seq<Lease<E>>, add: (E, E) -> E, zero: E, junk: E)
      returns (r: Result<seq<Trace>, DeviceError>)
      requires Admissible(plan, leases)
      requires forall l, m :: l in leases && m in leases && l != m ==> l.cells != m.cells
      modifies this`peers, driver, set l | l in leases :: l.cells
      ensures r.Ok? ==>
                var count := TotalOf(plan.request);
                (forall l :: l in leases ==> l.cells.Length >= count) &&
                IsOutcome(plan, Job(plan.request, old(Contents(leases, count)), zero), add, Contents(leases, count)) &&
                r.value == if count == 0 || ranks == 1 then [] else Traced(plan.actions, |plan.actions|)
      ensures Reported(r) == if TotalOf(plan.request) == 0 || ranks == 1 then None
                             else Fault(old(driver.script), old(peers), plan.actions, ranks)
      ensures r.Ok? && (TotalOf(plan.request) == 0 || ranks == 1) ==>
                driver.script == old(driver.script) && peers == old(peers)
      ensures r.Ok? && TotalOf(plan.request) > 0 && ranks > 1 ==> Enabled(old(peers), peers, plan.actions)
      ensures r.Err? && r.error.PeerFailed? ==> peers == old(peers)
      ensures Reliable(old(driver.script)) ==> r.Ok?
      ensures r.Err? ==> r.error !in {BadPlan, GroupMismatch, LeaseTooSmall, OwnerMismatch}
      ensures r.Err? && (r.error != RollbackFailed || OneSlip(old(driver.script))) ==>
                forall d: nat, k: nat :: d < |leases| && k < leases[d].cells.Length ==>
                  leases[d].cells[k] == old(leases[d].cells[k])
      ensures forall d: nat, k: nat :: d < |leases| && TotalOf(plan.request) <= k < leases[d].cells.Length ==>
                leases[d].cells[k] == old(leases[d].cells[k])
    {
      hide Admissible, Canonical, IsOutcome, Contents, Fault, Runs, Traced, Reliable, OneSlip, Enabled;
      FaultNeedsSlips(driver.script, peers, plan.actions, ranks);
      FaultIsLate(driver.script, peers, plan.actions, ranks);
      AdmissibleParts(plan, leases);
      var count := plan.request.lengths[0];
      if count == 0 || ranks == 1 {
        TrivialOutcome(plan, Job(plan.request, Contents(leases, count), zero), add);
        return Ok([]);
      }
      r := ReduceLeases(driver, plan, leases, add, zero, junk);
    }

    lemma AdmissibleParts(plan: Plan, leases: seq<Lease<E>>)
      requires Admissible(plan, leases)
      ensures |plan.request.lengths| > 0 && plan.request.lengths[0] == TotalOf(plan.request)
      ensures plan.request.kind.AllReduce? && plan.request.ranks == ranks == |leases|
      ensures forall l :: l in leases ==> l.cells.Length >= TotalOf(plan.request)
      ensures forall zero: E :: Runs(plan, Job(plan.request, Contents(leases, TotalOf(plan.request)), zero))
      ensures forall d: nat, e: nat :: d < e < |leases| ==> leases[d] != leases[e]
    {
      hide ActionsOf, Supplied, Contents, Runs;
      forall zero: E
        ensures Runs(plan, Job(plan.request, Contents(leases, TotalOf(plan.request)), zero))
      {
        JobRuns(plan, Job(plan.request, Contents(leases, TotalOf(plan.request)), zero));
      }
    }

    /** An admissible reduction with something to reduce. */
    method ReduceLeases(driver: Driver<E>, plan: Plan, leases: seq<Lease<E>>, add: (E, E) -> E, ghost zero: E, junk: E)
      returns (r: Result<seq<Trace>, DeviceError>)
      requires Admissible(plan, leases)
      requires forall l, m :: l in leases && m in leases && l != m ==> l.cells != m.cells
      modifies this`peers, driver, set l | l in leases :: l.cells
      ensures r.Ok? ==>
                var count := TotalOf(plan.request);
                (forall l :: l in leases ==> l.cells.Length >= count) &&
                IsOutcome(plan, Job(plan.request, old(Contents(leases, count)), zero), add, Contents(leases, count)) &&
                r.value == Traced(plan.actions, |plan.actions|)
      ensures Reported(r) == Fault(old(driver.script), old(peers), plan.actions, ranks)
      ensures r.Ok? ==> Enabled(old(peers), peers, plan.actions)
      ensures r.Err? && r.error.PeerFailed? ==> peers == old(peers)
      ensures r.Err? && r.error != RollbackFailed ==>
                forall d: nat, k: nat :: d < |leases| && k < leases[d].cells.Length ==>
                  leases[d].cells[k] == old(leases[d].cells[k])
      ensures forall d: nat, k: nat :: d < |leases| && TotalOf(plan.request) <= k < leases[d].cells.Length ==>
                leases[d].cells[k] == old(leases[d].cells[k])
    {
      AdmissibleParts(plan, leases);
      hide Admissible, IsOutcome, Runs, Reduced, Canonical, Fault, Traced;
      var outs := CellsOf(leases);
      assert forall d: nat :: d < ranks ==> leases[d] in leases && outs[d] == leases[d].cells;
      ghost var job := Job(plan.request, Contents(leases, TotalOf(plan.request)), zero);
      r := ReduceOuts(driver, plan, job, add, outs, plan.request.lengths[0], junk);
      if r.Ok? {
        ReducedOutcome(plan, job, add, outs, Contents(leases, TotalOf(plan.request)));
      }
    }

    /** Enables the missing peers, then reduces. */
    method ReduceOuts(driver: Driver<E>, plan: Plan, ghost job: Job<E>, add: (E, E) -> E, outs: seq<array<E>>,
                      count: nat,
                      junk: E) returns (r: Result<seq<Trace>, DeviceError>)
      requires Runs(plan, job) && plan.request.kind.AllReduce? && |outs| == ranks == plan.request.ranks
      requires TotalOf(plan.request) == count
      requires forall d: nat :: d < ranks ==> outs[d].Length >= count && |job.inputs[d]| == count
      requires forall d: nat, e: nat :: d < e < ranks ==> outs[d] != outs[e]
      requires forall d: nat, k: nat :: d < ranks && k < count ==> job.inputs[d][k] == outs[d][k]
      modifies this`peers, driver, outs
      ensures r.Ok? ==> Reduced(plan, job, add, outs, count) && r.value == Traced(plan.actions, |plan.actions|)
      ensures Reported(r) == Fault(old(driver.script), old(peers), plan.actions, ranks)
      ensures r.Ok? ==> Enabled(old(peers), peers, plan.actions)
      ensures r.Err? && r.error.PeerFailed? ==> peers == old(peers)
      ensures r.Err? && r.error != RollbackFailed ==>
                forall d: nat, k: nat :: d < ranks && k < outs[d].Length ==> outs[d][k] == old(outs[d][k])
      ensures forall d: nat, k: nat :: d < ranks && count <= k < outs[d].Length ==> outs[d][k] == old(outs[d][k])
    {
      hide Runs, NeedsPeer, Reduced, Canonical, FirstFail, Rest, Asking, Busy, ReduceFault, Traced, Calls;
      AskingCalls(driver.script, plan.actions, peers);
      var missing := EnsurePeers(driver, plan.actions);
      if missing.Some? {
        return Err(PeerFailed(missing.value));
      }
      NoPeerFault(driver.script, plan.actions, ranks);
      r := Reduce(driver, plan, job, add, outs, count, junk);
    }

    /** The workspace of every rank, and snapshots of the outputs. */
    method SetUp(driver: Driver<E>, outs: seq<array<E>>, count: nat, junk: E)
      returns (buffers: Option<(seq<array<E>>, seq<array<E>>)>)
      requires |outs| == ranks && forall d: nat :: d < ranks ==> outs[d].Length >= count
      modifies driver
      ensures buffers.Some? == FirstFail(old(driver.script), 4 * ranks).None?
      ensures buffers.Some? ==>
                var (scratch, originals) := buffers.value;
                driver.script == Rest(old(driver.script), 4 * ranks) &&
                |scratch| == |originals| == ranks && Sized(outs, scratch, originals, count) &&
                (forall d: nat :: d < ranks ==> fresh(scratch[d]) && fresh(originals[d])) &&
                (forall d: nat, e: nat :: d < e < ranks ==> scratch[d] != scratch[e] && originals[d] != originals[e]) &&
                (forall d: nat, e: nat :: d < ranks && e < ranks ==> scratch[d] != originals[e]) &&
                forall d: nat, k: nat :: d < ranks && k < count ==> originals[d][k] == outs[d][k]
    {
      hide FirstFail, Rest, Calls;
      ghost var script := driver.script;
      SetUpCalls(script, ranks);
      var settled := OnEvery(driver);
      if !settled {
        return None;
      }
      var scratched := AllocateAll(driver, ranks, count, junk);
      if scratched.None? {
        return None;
      }
      var saved := AllocateAll(driver, ranks, count, junk);
      if saved.None? {
        return None;
      }
      var snapped := CopyAll(driver, saved.value, outs, count);
      if !snapped {
        return None;
      }
      return Some((scratched.value, saved.value));
    }

    lemma AskingCalls(script: seq<Outcome<E>>, actions: seq<Action>, peers: set<(nat, nat)>)
      ensures var asking := Asking(actions, peers, |actions|);
              FirstFail(script, |asking|).None? ==> Calls(script, |asking|) == |asking|
    {
    }

    /** Snapshots, runs the actions, and puts the snapshots back if one of them fails. */
    method Reduce(driver: Driver<E>, plan: Plan, ghost job: Job<E>, add: (E, E) -> E, outs: seq<array<E>>, count: nat,
                  junk: E) returns (r: Result<seq<Trace>, DeviceError>)
      requires Runs(plan, job) && plan.request.kind.AllReduce? && |outs| == ranks == plan.request.ranks
      requires TotalOf(plan.request) == count
      requires forall d: nat :: d < ranks ==> outs[d].Length >= count && |job.inputs[d]| == count
      requires forall d: nat, e: nat :: d < e < ranks ==> outs[d] != outs[e]
      requires forall d: nat, k: nat :: d < ranks && k < count ==> job.inputs[d][k] == outs[d][k]
      requires forall key :: NeedsPeer(plan.actions, key) ==> key in peers
      modifies driver, outs
      ensures r.Ok? ==> Reduced(plan, job, add, outs, count) && r.value == Traced(plan.actions, |plan.actions|)
      ensures Reported(r) == ReduceFault(old(driver.script), plan.actions, ranks)
      ensures r.Err? && r.error != RollbackFailed ==>
                forall d: nat, k: nat :: d < ranks && k < outs[d].Length ==> outs[d][k] == old(outs[d][k])
      ensures forall d: nat, k: nat :: d < ranks && count <= k < outs[d].Length ==> outs[d][k] == old(outs[d][k])
    {
      hide RunCell, ActionsOf, Tracked, Cells, Given, AllPlaced, NeedsPeer, Reduced, Canonical, FirstFail, Rest, Calls;
      var buffers := SetUp(driver, outs, count, junk);
      if buffers.None? {
        return Err(SetupFailed);
      }
      var (scratch, originals) := buffers.value;
      SnapshotTaken(job, outs, originals, count);
      ghost var start, script := Cells(outs, scratch, count), driver.script;
      PlanIsPlaced(plan);
      var failed, trace := RunOnDevices(driver, peers, job, add, plan.actions, outs, scratch, originals, count);
      if failed.None? {
        FinishReduced(plan, job, add, start, Cells(outs, scratch, count), outs, count);
        return Ok(trace);
      }
      var restored := RollBack(driver, outs, originals, count);
      RollBackCalls(script, |Busy(plan.actions, |plan.actions|)|);
      if !restored {
        return Err(RollbackFailed);
      }
      SnapshotRestored(job, outs, originals, count);
      return Err(ActionFailed(failed.value));
    }

    /** Waits for every device and copies the snapshots back. */
    method RollBack(driver: Driver<E>, outs: seq<array<E>>, originals: seq<array<E>>, count: nat) returns (ok: bool)
      requires |outs| == |originals| == ranks
      requires forall d: nat :: d < ranks ==> outs[d].Length >= count && originals[d].Length >= count
      requires forall d: nat, e: nat :: d < ranks && e < ranks ==> outs[d] != originals[e]
      requires forall d: nat, e: nat :: d < e < ranks ==> outs[d] != outs[e]
      modifies outs, driver
      ensures ok == FirstFail(old(driver.script), 2 * ranks).None?
      ensures forall d: nat, k: nat :: d < ranks && count <= k < outs[d].Length ==> outs[d][k] == old(outs[d][k])
      ensures ok ==> forall d: nat, k: nat :: d < ranks && k < count ==> outs[d][k] == originals[d][k]
    {
      hide FirstFail, Rest, Calls;
      MoreCalls(driver.script, ranks, ranks);
      var calm := OnEvery(driver);
      if !calm {
        return false;
      }
      ok := CopyAll(driver, outs, originals, count);
    }

    lemma NeedsNext(actions: seq<Action>, i: nat)
      requires i < |actions|
      ensures forall key :: NeedsPeer(actions[..i + 1], key) <==>
                NeedsPeer(actions[..i], key) ||
                (actions[i].op == Transfer && actions[i].range.len != 0 &&
                 key == (actions[i].source, actions[i].destination))
      ensures actions[i].op == Transfer && actions[i].range.len != 0 ==>
                NeedsPeer(actions, (actions[i].source, actions[i].destination))
    {
      var more, less := actions[..i + 1], actions[..i];
      forall key
        ensures NeedsPeer(more, key) <==>
                NeedsPeer(less, key) ||
                (actions[i].op == Transfer && actions[i].range.len != 0 &&
                 key == (actions[i].source, actions[i].destination))
      {
        assert more[i] == actions[i];
        assert forall j :: 0 <= j < i ==> more[j] == less[j];
      }
    }
  }

  lemma JobRuns<E>(plan: Plan, job: Job<E>)
    requires plan.request.ranks > 0 && Canonical(plan.request) == Ok(plan) && plan.request.kind.AllReduce?
    requires job.request == plan.request && |job.inputs| == plan.request.ranks
    requires forall d :: 0 <= d < |job.inputs| ==> |job.inputs[d]| == TotalOf(plan.request)
    ensures Runs(plan, job)
  {
    SameLengths(plan.request);
  }

  /** With one rank, or nothing to reduce, the inputs are already the outcome. */
  lemma TrivialOutcome<E>(plan: Plan, job: Job<E>, add: (E, E) -> E)
    requires Runs(plan, job) && plan.request.kind.AllReduce? && (TotalOf(plan.request) == 0 || plan.request.ranks == 1)
    ensures IsOutcome(plan, job, add, job.inputs)
  {
    hide RunCell;
    var n, total := plan.request.ranks, TotalOf(plan.request);
    SameLengths(plan.request);
    forall d: nat | d < n
      ensures IsRowOutcome(plan, job, add, job.inputs[d], d)
    {
      forall k: nat | k < total
        ensures job.inputs[d][k] == RunCell(job, add, Cell(job.zero, job.zero), plan.actions, d, k).out
      {
        ReduceCell(job, add, Cell(job.zero, job.zero), n, Whole(total, n), n, d, k);
      }
    }
  }

  lemma PlanIsPlaced(plan: Plan)
    requires plan.request.ranks > 0 && Canonical(plan.request) == Ok(plan)
    ensures |plan.request.lengths| == plan.request.ranks && AllPlaced(plan.request, plan.actions)
  {
    PlanPlaced(plan.request);
  }

  lemma SnapshotTaken<E>(job: Job<E>, outs: seq<array<E>>, originals: seq<array<E>>, count: nat)
    requires !job.request.kind.AllGather? && |outs| == |originals| == |job.inputs|
    requires forall d: nat :: d < |outs| ==>
               outs[d].Length >= count && originals[d].Length == count && |job.inputs[d]| == count
    requires forall d: nat, k: nat :: d < |outs| && k < count ==>
               job.inputs[d][k] == outs[d][k] && originals[d][k] == outs[d][k]
    ensures Snapshot(job, originals, count)
  {
  }

  lemma SnapshotRestored<E>(job: Job<E>, outs: seq<array<E>>, originals: seq<array<E>>, count: nat)
    requires !job.request.kind.AllGather? && |outs| == |originals| == |job.inputs| && Snapshot(job, originals, count)
    requires forall d: nat :: d < |outs| ==>
               outs[d].Length >= count && originals[d].Length == count && |job.inputs[d]| == count
    requires forall d: nat, k: nat :: d < |outs| && k < count ==> outs[d][k] == originals[d][k]
    ensures forall d: nat, k: nat :: d < |outs| && k < count ==> outs[d][k] == job.inputs[d][k]
  {
    forall d: nat, k: nat | d < |outs| && k < count
      ensures outs[d][k] == job.inputs[d][k]
    {
      assert originals[d][k] == Given(job, d, k);
    }
  }

  /** The buffers hold what the plan's actions deliver from a blank workspace. */
  ghost predicate Reduced<E>(plan: Plan, job: Job<E>, add: (E, E) -> E, outs: seq<array<E>>, count: nat)
    reads outs
  {
    forall d: nat, k: nat :: d < |outs| && k < count && k < outs[d].Length ==>
      outs[d][k] == RunCell(job, add, Cell(job.zero, job.zero), plan.actions, d, k).out
  }

  /** What the actions left in the buffers does not depend on what the workspace held at the start. */
  lemma FinishReduced<E>(plan: Plan, job: Job<E>, add: (E, E) -> E, start: seq<seq<Cell<E>>>, now: seq<seq<Cell<E>>>,
                         outs: seq<array<E>>, count: nat)
    requires Runs(plan, job) && plan.request.kind.AllReduce? && Tracked(job, add, plan.actions, start, now)
    requires |start| == |outs| == plan.request.ranks && TotalOf(plan.request) == count
    requires forall d: nat :: d < |outs| ==> outs[d].Length >= count && |now[d]| == count
    requires forall d: nat, k: nat :: d < |outs| && k < count ==> now[d][k].out == outs[d][k]
    ensures Reduced(plan, job, add, outs, count)
  {
    hide RunCell, ActionsOf;
    forall d: nat, k: nat | d < |outs| && k < count && k < outs[d].Length
      ensures outs[d][k] == RunCell(job, add, Cell(job.zero, job.zero), plan.actions, d, k).out
    {
      assert TrackedRow(job, add, plan.actions, d, start[d], now[d]);
      NoStaleReads(plan, job, add, start[d][k], Cell(job.zero, job.zero), d, k);
    }
  }

  lemma ReducedOutcome<E>(plan: Plan, job: Job<E>, add: (E, E) -> E, outs: seq<array<E>>, contents: seq<seq<E>>)
    requires Runs(plan, job) && plan.request.kind.AllReduce? && Reduced(plan, job, add, outs, TotalOf(plan.request))
    requires |outs| == |contents| == plan.request.ranks
    requires forall d: nat :: d < |outs| ==>
               outs[d].Length >= TotalOf(plan.request) && contents[d] == outs[d][..TotalOf(plan.request)]
    ensures IsOutcome(plan, job, add, contents)
  {
    hide RunCell, ActionsOf;
    forall d: nat | d < |contents|
      ensures IsRowOutcome(plan, job, add, contents[d], d)
    {
      forall k: nat | k < |contents[d]|
        ensures contents[d][k] == RunCell(job, add, Cell(job.zero, job.zero), plan.actions, d, OutBase(plan, d) + k).out
      {
        assert contents[d][k] == outs[d][k];
      }
    }
  }
}
