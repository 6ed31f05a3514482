/** When the host pool grants bank requests, writes and reads, and what a granted transaction shows and changes. */
module Grants {
  import opened Wrappers
  import Shapes
  import opened HostSlots
  import opened HostCommits

  // Tensors and descriptors

  /** A tensor fits a descriptor by shape, dtype and byte size. */
  lemma MatchesIs(v: Tensor, d: Descriptor)
    ensures Matches(v, d) <==>
            v.shape == d.shape && v.dtype == d.dtype && |v.cells| * ItemSize(d.dtype) == d.bytes <= LIMIT
    ensures LIMIT == 0xFFFF_FFFF_FFFF_FFFF
  {
  }

  lemma ItemSizes(t: DType)
    ensures t in {Bool, I8, U8, F8E4M3, F8E5M2, F8E4M3FNUZ, F8E5M2FNUZ} <==> ItemSize(t) == 1
    ensures t in {I16, U16, F16, BF16} <==> ItemSize(t) == 2
    ensures t in {I32, U32, F32} <==> ItemSize(t) == 4
    ensures t in {I64, U64, F64} <==> ItemSize(t) == 8
  {
  }

  /** The zero of a descriptor: all cells zero, whenever the element count is representable. */
  lemma ZeroIs(d: Descriptor)
    ensures ZeroTensor(d).Some? <==> Shapes.CheckedNumel(d.shape).Some?
    ensures ZeroTensor(d).Some? ==>
              var z := ZeroTensor(d).value;
              z.dtype == d.dtype && z.shape == d.shape && forall k :: 0 <= k < |z.cells| ==> z.cells[k] == 0
  {
  }

  // Transactions

  /** A slot that a request may use: its own live generation and descriptor, with no view out and no window open. */
  ghost predicate Entitled(s: Slot, r: Request) {
    s.leased && s.generation == r.generation && s.views == 0 && !s.window && s.descriptor == Some(r.descriptor)
  }

  /** A request granted on its own; a successor needs a representable zero, a retained bank needs none. */
  ghost predicate Granted(t: Table, me: object, r: Request) {
    r.owner == me && r.slot in t.at && Entitled(t.at[r.slot], r) &&
    (r.retain || Shapes.CheckedNumel(r.descriptor.shape).Some?)
  }

  ghost predicate Apart(rs: seq<Request>) {
    forall i, j :: 0 <= i < j < |rs| ==> rs[i].slot != rs[j].slot
  }

  lemma UnfitIs(s: Slot, r: Request)
    ensures Unfit(s, r).None? <==> Entitled(s, r) && (r.retain || Shapes.CheckedNumel(r.descriptor.shape).Some?)
    ensures Unfit(s, r) == Some(StaleGeneration(r.slot, r.generation)) <==> s.generation != r.generation || !s.leased
    ensures Unfit(s, r) == Some(OutstandingBorrow(r.slot)) <==>
            s.generation == r.generation && s.leased && (s.views != 0 || s.window)
    ensures Unfit(s, r).None? || Unfit(s, r) == Some(IncompatibleDescriptor) ||
            Unfit(s, r) == Some(StaleGeneration(r.slot, r.generation)) || Unfit(s, r) == Some(OutstandingBorrow(r.slot))
  {
    if !r.retain && InactiveOf(s).Some? && Matches(InactiveOf(s).value, r.descriptor) {
      MatchHasZero(InactiveOf(s).value, r.descriptor);
    }
  }

  lemma RefusedIs(t: Table, me: object, rs: seq<Request>, k: nat)
    requires k < |rs|
    ensures Refused(t, me, rs, k).None? <==>
            Granted(t, me, rs[k]) && forall j :: 0 <= j < k ==> rs[j].slot != rs[k].slot
  {
    hide Unfit, Ordinal;
    assert forall j :: 0 <= j < k ==> rs[..k][j] == rs[j];
    if rs[k].slot in t.at {
      UnfitIs(t.at[rs[k].slot], rs[k]);
    }
  }

  /** Request `k` is the first not granted, and the error is its first fault. */
  ghost predicate FaultOf(t: Table, me: object, rs: seq<Request>, k: nat, e: HostError) {
    k < |rs| && (forall j :: 0 <= j < k ==> Granted(t, me, rs[j])) && Apart(rs[..k]) &&
    var r := rs[k];
    if r.owner != me || (exists j :: 0 <= j < k && rs[j].slot == r.slot) then e == OwnerMismatch
    else if r.slot !in t.at then e == MissingSlot(r.slot)
    else
      var s := t.at[r.slot];
      if s.generation != r.generation || !s.leased then e == StaleGeneration(r.slot, r.generation)
      else if s.views != 0 || s.window then e == OutstandingBorrow(r.slot)
      else e == IncompatibleDescriptor && !Granted(t, me, r)
  }

  /** Request `k` names the lowest requested slot that holds no active value. */
  ghost predicate Valueless(t: Table, rs: seq<Request>, k: nat) {
    k < |rs| && rs[k].slot in t.at && t.at[rs[k].slot].values[t.at[rs[k].slot].active].None? &&
    forall j :: 0 <= j < |rs| && rs[j].slot in t.at && rs[j].slot < rs[k].slot ==>
      t.at[rs[j].slot].values[t.at[rs[j].slot].active].Some?
  }

  /** A transaction reaches its callback exactly when all requests are granted, have values and name different slots. */
  lemma OpensExactly(t: Table, me: object, rs: seq<Request>)
    ensures Admit(t, me, rs).Open? <==>
            (forall i :: 0 <= i < |rs| ==> Granted(t, me, rs[i]) && HasActive(t, rs[i])) && Apart(rs)
  {
    hide Refused, Prepared, Banks, Granted, HasActive, Ordinal, FirstMissing, Unfit;
    forall i: nat | i < |rs|
      ensures Refused(t, me, rs, i).None? <==>
              Granted(t, me, rs[i]) && forall j :: 0 <= j < i ==> rs[j].slot != rs[i].slot
    {
      RefusedIs(t, me, rs, i);
    }
    if (forall i :: 0 <= i < |rs| ==> Granted(t, me, rs[i])) && Apart(rs) {
      AdmittedIs(t, me, rs, |rs|);
      AllActive(t, me, rs);
    } else if Admit(t, me, rs).Open? {
      assert forall i :: 0 <= i < |rs| ==> Refused(t, me, rs, i).None?;
    }
  }

  ghost predicate HasActive(t: Table, r: Request) {
    r.slot in t.at && t.at[r.slot].values[t.at[r.slot].active].Some?
  }

  lemma AllActive(t: Table, me: object, rs: seq<Request>)
    requires forall i :: 0 <= i < |rs| ==> Granted(t, me, rs[i])
    ensures FirstMissing(t, rs, 0).None? <==> forall i :: 0 <= i < |rs| ==> HasActive(t, rs[i])
  {
    hide Ordinal, FirstMissing;
    MissingFrom(t, rs, 0);
    if FirstMissing(t, rs, 0).None? {
      forall i | 0 <= i < |rs|
        ensures HasActive(t, rs[i])
      {
        assert rs[i].slot in t.keys;
        var m :| 0 <= m < |t.keys| && t.keys[m] == rs[i].slot;
        assert ActiveUntil(t, rs, 0, |t.keys|);
      }
    } else {
      var m: nat :| MissingAt(t, rs, 0, m, FirstMissing(t, rs, 0).value);
      var o := Ordinal(rs, t.keys[m]).value;
      assert !HasActive(t, rs[o]);
    }
  }

  /** Position `m` is the first from `j` on to hold a requested slot without an active value, named by `id`. */
  ghost predicate MissingAt(t: Table, rs: seq<Request>, j: nat, m: nat, id: nat) {
    j <= m < |t.keys| && Ordinal(rs, t.keys[m]).Some? && ActiveOf(t.at[t.keys[m]]).None? &&
    id == rs[Ordinal(rs, t.keys[m]).value].descriptor.bufferId && ActiveUntil(t, rs, j, m)
  }

  ghost predicate ActiveUntil(t: Table, rs: seq<Request>, j: nat, m: nat)
    requires m <= |t.keys|
  {
    forall i :: j <= i < m && Ordinal(rs, t.keys[i]).Some? ==> ActiveOf(t.at[t.keys[i]]).Some?
  }

  lemma {:induction false} MissingFrom(t: Table, rs: seq<Request>, j: nat)
    requires j <= |t.keys|
    ensures var missing := FirstMissing(t, rs, j);
            if missing.None? then ActiveUntil(t, rs, j, |t.keys|)
            else exists m: nat :: MissingAt(t, rs, j, m, missing.value)
    decreases |t.keys| - j
  {
    hide Ordinal, ActiveOf;
    if j < |t.keys| {
      MissingFrom(t, rs, j + 1);
      if Ordinal(rs, t.keys[j]).Some? && ActiveOf(t.at[t.keys[j]]).None? {
        assert MissingAt(t, rs, j, j, FirstMissing(t, rs, j).value);
      } else if FirstMissing(t, rs, j + 1).Some? {
        var m: nat :| MissingAt(t, rs, j + 1, m, FirstMissing(t, rs, j + 1).value);
        assert MissingAt(t, rs, j, m, FirstMissing(t, rs, j).value);
      }
    }
  }

  ghost predicate Faulted(t: Table, me: object, rs: seq<Request>, e: HostError) {
    exists k: nat :: FaultOf(t, me, rs, k, e)
  }

  ghost predicate Unvalued(t: Table, rs: seq<Request>, e: HostError) {
    exists k: nat :: Valueless(t, rs, k) && e == MissingValue(rs[k].descriptor.bufferId)
  }

  /** A rejection names the first fault of the first request at fault, or else the lowest slot without a value. */
  lemma RejectionMeans(t: Table, me: object, rs: seq<Request>)
    requires Admit(t, me, rs).Rejected?
    ensures var e := Admit(t, me, rs).error;
            Faulted(t, me, rs, e) ||
            ((forall i :: 0 <= i < |rs| ==> Granted(t, me, rs[i])) && Apart(rs) && Unvalued(t, rs, e))
  {
    hide Prepared, Banks, Ordinal, FirstMissing, Unfit, Refused, Granted, Faulted, Unvalued;
    var n := Admitted(t, me, rs, 0);
    forall i: nat | i < |rs|
      ensures Refused(t, me, rs, i).None? <==>
              Granted(t, me, rs[i]) && forall j :: 0 <= j < i ==> rs[j].slot != rs[i].slot
    {
      RefusedIs(t, me, rs, i);
    }
    if n < |rs| {
      FaultIs(t, me, rs, n);
    } else {
      assert forall i :: 0 <= i < |rs| ==> Refused(t, me, rs, i).None?;
      ValuelessIs(t, rs);
    }
  }

  lemma FaultIs(t: Table, me: object, rs: seq<Request>, k: nat)
    requires k < |rs| && Refused(t, me, rs, k).Some?
    requires forall i :: 0 <= i < k ==> Granted(t, me, rs[i]) && forall j :: 0 <= j < i ==> rs[j].slot != rs[i].slot
    ensures Faulted(t, me, rs, Refused(t, me, rs, k).value)
  {
    hide Unfit, Ordinal, Granted;
    var r := rs[k];
    assert forall j :: 0 <= j < k ==> rs[..k][j] == rs[j];
    RefusedIs(t, me, rs, k);
    if r.slot in t.at {
      UnfitIs(t.at[r.slot], r);
    }
    assert FaultOf(t, me, rs, k, Refused(t, me, rs, k).value);
  }

  lemma ValuelessIs(t: Table, rs: seq<Request>)
    requires FirstMissing(t, rs, 0).Some?
    ensures Unvalued(t, rs, MissingValue(FirstMissing(t, rs, 0).value))
  {
    hide Ordinal, FirstMissing;
    MissingFrom(t, rs, 0);
    var m: nat :| MissingAt(t, rs, 0, m, FirstMissing(t, rs, 0).value);
    var k := Ordinal(rs, t.keys[m]).value;
    forall j | 0 <= j < |rs| && rs[j].slot in t.at && rs[j].slot < rs[k].slot
      ensures t.at[rs[j].slot].values[t.at[rs[j].slot].active].Some?
    {
      assert rs[j].slot in t.keys;
      var i :| 0 <= i < |t.keys| && t.keys[i] == rs[j].slot;
      assert i < m && Ordinal(rs, t.keys[i]).Some?;
    }
    assert Valueless(t, rs, k);
  }

  // What the callback is shown

  /**
   * The successor offered for a slot: what its inactive bank holds if that fits the descriptor, and otherwise the zero.
   */
  ghost predicate Offered(s: Slot, d: Descriptor, v: Tensor) {
    var before := s.values[1 - s.active];
    if before.Some? && before.value.shape == d.shape && before.value.dtype == d.dtype &&
       |before.value.cells| * ItemSize(d.dtype) == d.bytes <= LIMIT
    then v == before.value
    else v.dtype == d.dtype && v.shape == d.shape && forall k :: 0 <= k < |v.cells| ==> v.cells[k] == 0
  }

  lemma ReadyOffers(s: Slot, r: Request)
    requires Unfit(s, r).None?
    ensures Ready(s, r) == s.(values := Ready(s, r).values) && ActiveOf(Ready(s, r)) == s.values[s.active]
    ensures r.retain ==> Ready(s, r) == s
    ensures !r.retain ==> InactiveOf(Ready(s, r)).Some? && Offered(s, r.descriptor, InactiveOf(Ready(s, r)).value)
  {
    ZeroIs(r.descriptor);
  }

  /** Bank `i` shows request `i`'s active value, and unless retained a successor to fill. */
  lemma BankShows(t: Table, me: object, rs: seq<Request>, i: nat)
    requires Admit(t, me, rs).Open? && i < |rs|
    ensures var banks := Admit(t, me, rs).banks;
            |banks| == |rs| && rs[i].slot in t.at &&
            var s, b := t.at[rs[i].slot], banks[i];
            b.ordinal == i && b.bufferId == rs[i].descriptor.bufferId && s.values[s.active] == Some(b.active) &&
            (b.inactive.None? <==> rs[i].retain) &&
            (b.inactive.Some? ==> Offered(s, rs[i].descriptor, b.inactive.value))
  {
    hide Ordinal, Unfit, Ready, Offered, FirstMissing, Refused, Admitted;
    AdmitOpens(t, me, rs);
    AdmittedOrdinal(t, me, rs, i);
    ReadyOffers(t.at[rs[i].slot], rs[i]);
    assert rs[..|rs|] == rs;
  }

  /** The tensor bank `i` would publish: what the callback left in it, and for a retained bank its active value. */
  ghost predicate Leaves(b: Bank, written: seq<Tensor>, i: nat, v: Tensor) {
    if b.inactive.None? then v == b.active else if i < |written| then v == written[i] else v == b.inactive.value
  }

  /** The callback's failure is passed on; its success counts only if everything to publish fits its descriptor. */
  lemma OutcomeMeans<T, E>(t: Table, me: object, rs: seq<Request>, stage: seq<Bank> -> Staged<T, E>)
    ensures var a, r := Admit(t, me, rs), HostSlots.Transact(t, me, rs, stage).result;
            match a
            case Rejected(e, _) => r == Err(Host(e))
            case Open(_, banks) =>
              |banks| == |rs| &&
              var out := stage(banks);
              match out.result
              case Err(e) => r == Err(Stage(e))
              case Ok(v) =>
                if forall i: nat, w: Tensor :: i < |rs| && Leaves(banks[i], out.written, i, w) ==>
                     Matches(w, rs[i].descriptor)
                then r == Ok(v) else r == Err(Host(IncompatibleDescriptor))
  {
    hide Admit, Matches, Scribbled, Exchanged;
    AdmitView(t, me, rs);
    match Admit(t, me, rs)
    case Rejected(_, _) =>
    case Open(p, banks) =>
      var out := stage(banks);
      var values := Successors(banks, out.written);
      assert forall i: nat, w: Tensor :: i < |rs| && Leaves(banks[i], out.written, i, w) ==> w == values[i];
      assert forall i: nat :: i < |rs| ==> Leaves(banks[i], out.written, i, values[i]);
  }

  ghost predicate Publishes(t: Table, u: Table, r: Request, w: Tensor) {
    r.slot in t.at && r.slot in u.at &&
    var before, after := t.at[r.slot], u.at[r.slot];
    after.values[after.active] == Some(w) && after == before.(values := after.values, active := after.active) &&
    (if r.retain then after == before else after.values[1 - after.active] == before.values[before.active])
  }

  /**
   * After a success every request's slot shows what its bank left, and a replaced slot keeps the old value beside it.
   */
  lemma SuccessShows<T, E>(t: Table, me: object, rs: seq<Request>, stage: seq<Bank> -> Staged<T, E>, i: nat, w: Tensor)
    requires HostSlots.Transact(t, me, rs, stage).result.Ok? && i < |rs|
    ensures Admit(t, me, rs).Open? && |Admit(t, me, rs).banks| == |rs|
    ensures var banks, u := Admit(t, me, rs).banks, HostSlots.Transact(t, me, rs, stage).table;
            Leaves(banks[i], stage(banks).written, i, w) ==> Publishes(t, u, rs[i], w)
  {
    hide Admit, HostSlots.Transact, Matches, Ordinal, Offered, Publishes, RequestPublished;
    SuccessPublishes(t, me, rs, stage);
    BankShows(t, me, rs, i);
    var banks := Admit(t, me, rs).banks;
    var values := Successors(banks, stage(banks).written);
    assert RequestPublished(t, HostSlots.Transact(t, me, rs, stage).table, rs[i], values[i]);
    PublishedMeans(t, HostSlots.Transact(t, me, rs, stage).table, rs[i], values[i]);
  }

  lemma PublishedMeans(t: Table, u: Table, r: Request, v: Tensor)
    requires RequestPublished(t, u, r, v) && (r.retain ==> t.at[r.slot].values[t.at[r.slot].active] == Some(v))
    ensures Publishes(t, u, r, v)
  {
    hide Matches;
  }

  // What a transaction leaves alone

  /** Some request may use slot `k`. */
  ghost predicate Wanted(t: Table, rs: seq<Request>, k: int) {
    exists i :: 0 <= i < |rs| && rs[i].slot == k && k in t.at && Entitled(t.at[k], rs[i])
  }

  lemma PreparedSpares(t: Table, me: object, rs: seq<Request>, n: nat, k: int)
    requires n <= |rs| && k in t.at && !Wanted(t, rs, k)
    requires forall i :: 0 <= i < n ==> Refused(t, me, rs, i).None?
    ensures k in Prepared(t, rs, n).at && Prepared(t, rs, n).at[k] == t.at[k]
  {
    hide Ordinal, Refused, Ready;
    if Ordinal(rs[..n], k).Some? {
      var o := Ordinal(rs[..n], k).value;
      RefusedIs(t, me, rs, o);
    }
  }

  /**
   * Whatever its outcome, a transaction changes only slots that a request may use: none with a view or a window out.
   */
  lemma TransactSpares<T, E>(t: Table, me: object, rs: seq<Request>, stage: seq<Bank> -> Staged<T, E>, k: int)
    requires k in t.at && !Wanted(t, rs, k)
    ensures var u := HostSlots.Transact(t, me, rs, stage).table; k in u.at && u.at[k] == t.at[k]
  {
    hide Admit, Conclude, Wanted, Ordinal;
    AdmitSpares(t, me, rs, k);
    match Admit(t, me, rs)
    case Rejected(_, _) =>
    case Open(p, banks) =>
      NotRequested(t, me, rs, k);
      AdmitView(t, me, rs);
      ConcludeSpares(p, rs, banks, stage(banks), k);
  }

  lemma AdmitSpares(t: Table, me: object, rs: seq<Request>, k: int)
    requires k in t.at && !Wanted(t, rs, k)
    ensures k in Admit(t, me, rs).table.at && Admit(t, me, rs).table.at[k] == t.at[k]
  {
    hide Ordinal, Refused, FirstMissing, Banks, Wanted, Prepared;
    PreparedSpares(t, me, rs, Admitted(t, me, rs, 0), k);
  }

  lemma ConcludeSpares<T, E>(p: Table, rs: seq<Request>, banks: seq<Bank>, out: Staged<T, E>, k: int)
    requires |rs| == |banks| && k in p.at && Ordinal(rs, k).None?
    ensures k in Conclude(p, rs, banks, out).table.at && Conclude(p, rs, banks, out).table.at[k] == p.at[k]
  {
    hide Ordinal, Agreeing, Successors;
    assert rs[..|rs|] == rs;
  }

  lemma NotRequested(t: Table, me: object, rs: seq<Request>, k: int)
    requires Admit(t, me, rs).Open? && k in t.at && !Wanted(t, rs, k)
    ensures Ordinal(rs, k).None?
  {
    hide Ordinal, Refused, FirstMissing, Banks;
    if Ordinal(rs, k).Some? {
      RefusedIs(t, me, rs, Ordinal(rs, k).value);
    }
  }

  // Batches

  /** A write that may be committed: to a live, unviewed, closed slot of its own descriptor. */
  ghost predicate Committable(t: Table, me: object, w: PendingWrite) {
    w.owner == me && w.slot in t.at && Entitled(t.at[w.slot], AsRequest(w)) &&
    w.value.shape == w.descriptor.shape && w.value.dtype == w.descriptor.dtype
  }

  lemma CommitRefusedIs(t: Table, me: object, ws: seq<PendingWrite>, k: nat)
    requires k < |ws|
    ensures CommitRefused(t, me, ws, k).None? <==>
            Committable(t, me, ws[k]) && forall j :: 0 <= j < k ==> ws[j].slot != ws[k].slot
    ensures CommitRefused(t, me, ws, k) == Some(OwnerMismatch) <==> ws[k].owner != me
    ensures CommitRefused(t, me, ws, k) == Some(StaleGeneration(ws[k].slot, ws[k].generation)) <==>
            ws[k].owner == me && (forall j :: 0 <= j < k ==> ws[j].slot != ws[k].slot) && ws[k].slot in t.at &&
            (t.at[ws[k].slot].generation != ws[k].generation || !t.at[ws[k].slot].leased)
    ensures CommitRefused(t, me, ws, k) == Some(MissingSlot(ws[k].slot)) <==>
            ws[k].owner == me && (forall j :: 0 <= j < k ==> ws[j].slot != ws[k].slot) && ws[k].slot !in t.at
  {
    hide Ordinal;
    var rs := AsRequests(ws);
    assert forall j :: 0 <= j < k ==> rs[..k][j] == AsRequest(ws[j]);
  }

  /** A batch is accepted exactly when all its writes may be committed and name different slots. */
  lemma CommitsExactly(t: Table, me: object, ws: seq<PendingWrite>)
    ensures FirstCommitRefusal(t, me, ws, 0).None? <==>
            (forall i :: 0 <= i < |ws| ==> Committable(t, me, ws[i])) &&
            forall i, j :: 0 <= i < j < |ws| ==> ws[i].slot != ws[j].slot
  {
    hide CommitRefused, FirstCommitRefusal, Committable;
    forall k: nat | k < |ws|
      ensures CommitRefused(t, me, ws, k).None? <==>
              Committable(t, me, ws[k]) && forall j :: 0 <= j < k ==> ws[j].slot != ws[k].slot
    {
      CommitRefusedIs(t, me, ws, k);
    }
  }

  /** Write `k` is the first that may not be committed, and the error is its first fault. */
  ghost predicate CommitFault(t: Table, me: object, ws: seq<PendingWrite>, k: nat, e: HostError) {
    k < |ws| && (forall j :: 0 <= j < k ==> Committable(t, me, ws[j])) &&
    (forall i, j :: 0 <= i < j < k ==> ws[i].slot != ws[j].slot) &&
    var w := ws[k];
    if w.owner != me then e == OwnerMismatch
    else if exists j :: 0 <= j < k && ws[j].slot == w.slot then e == OutstandingBorrow(w.slot)
    else if w.slot !in t.at then e == MissingSlot(w.slot)
    else
      var s := t.at[w.slot];
      if s.generation != w.generation || !s.leased then e == StaleGeneration(w.slot, w.generation)
      else if s.views != 0 || s.window then e == OutstandingBorrow(w.slot)
      else e == IncompatibleDescriptor && !Committable(t, me, w)
  }

  /** A refused batch names the first fault of its first write at fault. */
  lemma CommitRejectionMeans(t: Table, me: object, ws: seq<PendingWrite>)
    requires FirstCommitRefusal(t, me, ws, 0).Some?
    ensures exists k: nat :: CommitFault(t, me, ws, k, FirstCommitRefusal(t, me, ws, 0).value)
  {
    hide CommitFault;
    var k := FirstBadWrite(t, me, ws, 0);
    WriteFaultIs(t, me, ws, k);
  }

  lemma {:induction false} FirstBadWrite(t: Table, me: object, ws: seq<PendingWrite>, n: nat) returns (k: nat)
    requires n <= |ws| && FirstCommitRefusal(t, me, ws, n).Some?
    ensures n <= k < |ws| && FirstCommitRefusal(t, me, ws, n) == CommitRefused(t, me, ws, k)
    ensures forall j :: n <= j < k ==> CommitRefused(t, me, ws, j).None?
    decreases |ws| - n
  {
    hide CommitRefused;
    if CommitRefused(t, me, ws, n).Some? {
      k := n;
    } else {
      k := FirstBadWrite(t, me, ws, n + 1);
    }
  }

  lemma WriteFaultIs(t: Table, me: object, ws: seq<PendingWrite>, k: nat)
    requires k < |ws| && CommitRefused(t, me, ws, k).Some?
    requires forall j :: 0 <= j < k ==> CommitRefused(t, me, ws, j).None?
    ensures CommitFault(t, me, ws, k, CommitRefused(t, me, ws, k).value)
  {
    hide Committable, Ordinal;
    forall i: nat | i <= k
      ensures CommitRefused(t, me, ws, i).None? <==>
              Committable(t, me, ws[i]) && forall j :: 0 <= j < i ==> ws[j].slot != ws[i].slot
    {
      CommitRefusedIs(t, me, ws, i);
    }
    assert forall j :: 0 <= j < k ==> AsRequests(ws)[..k][j] == AsRequest(ws[j]);
  }

  /** A read that may be shown: of a live slot with no window open, whatever views are out, holding a fitting value. */
  ghost predicate Readable(t: Table, me: object, r: Request) {
    r.owner == me && r.slot in t.at &&
    var s := t.at[r.slot];
    s.leased && s.generation == r.generation && !s.window && s.descriptor == Some(r.descriptor) &&
    s.values[s.active].Some? && Matches(s.values[s.active].value, r.descriptor)
  }

  lemma ReadRefusedIs(t: Table, me: object, rs: seq<Request>, k: nat)
    requires k < |rs|
    ensures ReadRefused(t, me, rs, k).None? <==>
            Readable(t, me, rs[k]) && forall j :: 0 <= j < k ==> rs[j].slot != rs[k].slot
    ensures ReadRefused(t, me, rs, k) == Some(OutstandingBorrow(rs[k].slot)) <==>
            rs[k].owner == me && (forall j :: 0 <= j < k ==> rs[j].slot != rs[k].slot) && rs[k].slot in t.at &&
            t.at[rs[k].slot].leased && t.at[rs[k].slot].generation == rs[k].generation && t.at[rs[k].slot].window
  {
    hide Ordinal, Matches;
    assert forall j :: 0 <= j < k ==> rs[..k][j] == rs[j];
  }

  /** A read batch is shown exactly when all its reads may be and name different slots. */
  lemma ReadsExactly(t: Table, me: object, rs: seq<Request>)
    ensures FirstReadRefusal(t, me, rs, 0).None? <==>
            (forall i :: 0 <= i < |rs| ==> Readable(t, me, rs[i])) && Apart(rs)
  {
    hide ReadRefused, FirstReadRefusal, Readable;
    forall k: nat | k < |rs|
      ensures ReadRefused(t, me, rs, k).None? <==>
              Readable(t, me, rs[k]) && forall j :: 0 <= j < k ==> rs[j].slot != rs[k].slot
    {
      ReadRefusedIs(t, me, rs, k);
    }
  }

  /** Every accepted read shows its slot's active value, under its own place and buffer, in request order. */
  lemma ReadsShow(t: Table, me: object, rs: seq<Request>, i: nat)
    requires FirstReadRefusal(t, me, rs, 0).None? && i < |rs|
    ensures |Reads(t, me, rs)| == |rs| && Readable(t, me, rs[i])
    ensures var s := t.at[rs[i].slot];
            Reads(t, me, rs)[i] == Read(i, rs[i].descriptor.bufferId, s.values[s.active].value)
  {
    hide Reads, FirstReadRefusal, Matches, Ordinal;
    ReadRefusedIs(t, me, rs, i);
  }

  /** Read `k` is the first that may not be shown, and the error is its first fault. */
  ghost predicate ReadFault(t: Table, me: object, rs: seq<Request>, k: nat, e: HostError) {
    k < |rs| && (forall j :: 0 <= j < k ==> Readable(t, me, rs[j])) && Apart(rs[..k]) &&
    var r := rs[k];
    if r.owner != me || (exists j :: 0 <= j < k && rs[j].slot == r.slot) then e == OwnerMismatch
    else if r.slot !in t.at then e == MissingSlot(r.slot)
    else
      var s := t.at[r.slot];
      if s.generation != r.generation || !s.leased then e == StaleGeneration(r.slot, r.generation)
      else if s.window then e == OutstandingBorrow(r.slot)
      else if s.descriptor == Some(r.descriptor) && s.values[s.active].None?
      then e == MissingValue(r.descriptor.bufferId)
      else e == IncompatibleDescriptor && !Readable(t, me, r)
  }

  /** A refused batch of reads names the first fault of its first read at fault. */
  lemma ReadRejectionMeans(t: Table, me: object, rs: seq<Request>)
    requires FirstReadRefusal(t, me, rs, 0).Some?
    ensures exists k: nat :: ReadFault(t, me, rs, k, FirstReadRefusal(t, me, rs, 0).value)
  {
    hide ReadFault;
    var k := FirstBadRead(t, me, rs, 0);
    ReadFaultIs(t, me, rs, k);
  }

  lemma {:induction false} FirstBadRead(t: Table, me: object, rs: seq<Request>, n: nat) returns (k: nat)
    requires n <= |rs| && FirstReadRefusal(t, me, rs, n).Some?
    ensures n <= k < |rs| && FirstReadRefusal(t, me, rs, n) == ReadRefused(t, me, rs, k)
    ensures forall j :: n <= j < k ==> ReadRefused(t, me, rs, j).None?
    decreases |rs| - n
  {
    hide ReadRefused;
    if ReadRefused(t, me, rs, n).Some? {
      k := n;
    } else {
      k := FirstBadRead(t, me, rs, n + 1);
    }
  }

  lemma ReadFaultIs(t: Table, me: object, rs: seq<Request>, k: nat)
    requires k < |rs| && ReadRefused(t, me, rs, k).Some?
    requires forall j :: 0 <= j < k ==> ReadRefused(t, me, rs, j).None?
    ensures ReadFault(t, me, rs, k, ReadRefused(t, me, rs, k).value)
  {
    hide Readable, Ordinal, Matches;
    forall i: nat | i <= k
      ensures ReadRefused(t, me, rs, i).None? <==>
              Readable(t, me, rs[i]) && forall j :: 0 <= j < i ==> rs[j].slot != rs[i].slot
    {
      ReadRefusedIs(t, me, rs, i);
    }
    assert forall j :: 0 <= j < k ==> rs[..k][j] == rs[j];
  }

  // Leases

  /** A slot that may be leased: new, or free, of the same size and kind of storage, and with a generation to spare. */
  ghost predicate Leasable(t: Table, k: int, sentinel: bool, d: Descriptor) {
    k in t.at ==>
      var s := t.at[k];
      !s.leased && s.views == 0 && !s.window && (sentinel || s.capacity == d.bytes) &&
      s.generation != 0xFFFF_FFFF_FFFF_FFFF &&
      (s.descriptor.Some? ==>
         var p := s.descriptor.value;
         p.dtype == d.dtype && p.shape == d.shape && p.bytes == d.bytes && p.alignment == d.alignment &&
         p.lanes == d.lanes)
  }
}
