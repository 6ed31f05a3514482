/** The batch commit and the read-only batch of the host pool: when each is refused and what a commit leaves. */
module HostCommits {
  import opened Wrappers
  import opened HostSlots

  /** An owned successor value for one slot. */
  datatype PendingWrite = PendingWrite(owner: object, slot: int, generation: nat, descriptor: Descriptor, value: Tensor)

  function AsRequest(w: PendingWrite): Request {
    Request(w.owner, w.slot, w.generation, w.descriptor, false)
  }

  function AsRequests(ws: seq<PendingWrite>): (rs: seq<Request>)
    ensures |rs| == |ws| && forall i :: 0 <= i < |ws| ==> rs[i] == AsRequest(ws[i])
  {
    seq(|ws|, i requires 0 <= i < |ws| => AsRequest(ws[i]))
  }

  function ValuesOf(ws: seq<PendingWrite>): (values: seq<Tensor>)
    ensures |values| == |ws| && forall i :: 0 <= i < |ws| ==> values[i] == ws[i].value
  {
    seq(|ws|, i requires 0 <= i < |ws| => ws[i].value)
  }

  /** Why write `k` of a batch is refused; a repeated slot counts as borrowed. */
  function CommitRefused(t: Table, me: object, ws: seq<PendingWrite>, k: nat): Option<HostError>
    requires k < |ws|
  {
    var w := ws[k];
    if w.owner != me then Some(OwnerMismatch)
    else if Ordinal(AsRequests(ws)[..k], w.slot).Some? then Some(OutstandingBorrow(w.slot))
    else if w.slot !in t.at then Some(MissingSlot(w.slot))
    else
      var s := t.at[w.slot];
      if s.generation != w.generation || !s.leased then Some(StaleGeneration(w.slot, w.generation))
      else if s.views != 0 || s.window then Some(OutstandingBorrow(w.slot))
      else if s.descriptor != Some(w.descriptor) || w.value.shape != w.descriptor.shape ||
        w.value.dtype != w.descriptor.dtype
      then Some(IncompatibleDescriptor)
      else None
  }

  /** The first refused write of a batch, if any, from write `k` on. */
  function FirstCommitRefusal(t: Table, me: object, ws: seq<PendingWrite>, k: nat): (r: Option<HostError>)
    requires k <= |ws|
    ensures r.None? <==> forall i :: k <= i < |ws| ==> CommitRefused(t, me, ws, i).None?
    decreases |ws| - k
  {
    if k == |ws| then None
    else if CommitRefused(t, me, ws, k).Some? then CommitRefused(t, me, ws, k)
    else FirstCommitRefusal(t, me, ws, k + 1)
  }

  /** The table after a batch: every successor staged, then every bank pair exchanged. */
  function Committed(t: Table, ws: seq<PendingWrite>): Table {
    Exchanged(Scribbled(t, AsRequests(ws), ValuesOf(ws), |ws|), AsRequests(ws), |ws|)
  }

  /** A batch publishes every written value, keeps what it replaces as the inactive bank, and touches no other slot. */
  ghost predicate BatchPublished(t: Table, u: Table, ws: seq<PendingWrite>) {
    u.keys == t.keys &&
    (forall i :: 0 <= i < |ws| ==> WritePublished(t, u, ws[i])) &&
    forall k :: k in t.at && (forall i :: 0 <= i < |ws| ==> ws[i].slot != k) ==> k in u.at && u.at[k] == t.at[k]
  }

  ghost predicate WritePublished(t: Table, u: Table, w: PendingWrite) {
    w.slot in t.at && w.slot in u.at && Published(t.at[w.slot], u.at[w.slot], AsRequest(w), w.value)
  }

  lemma CommitOrdinal(t: Table, me: object, ws: seq<PendingWrite>, i: nat)
    requires i < |ws| && FirstCommitRefusal(t, me, ws, 0).None?
    ensures ws[i].slot in t.at && t.at[ws[i].slot].leased && t.at[ws[i].slot].generation == ws[i].generation
    ensures Ordinal(AsRequests(ws)[..i], ws[i].slot).None? && Ordinal(AsRequests(ws), ws[i].slot) == Some(i)
  {
    hide Ordinal;
    var rs := AsRequests(ws);
    assert CommitRefused(t, me, ws, i).None?;
    assert forall j :: 0 <= j < i ==> rs[..i][j] == rs[j];
    assert rs[i].slot == ws[i].slot;
  }

  lemma CommittedAt(t: Table, ws: seq<PendingWrite>, i: nat)
    requires i < |ws| && ws[i].slot in t.at && Ordinal(AsRequests(ws), ws[i].slot) == Some(i)
    ensures ws[i].slot in Committed(t, ws).at
    ensures Committed(t, ws).at[ws[i].slot] == Flipped(WithInactive(t.at[ws[i].slot], ws[i].value))
  {
    hide Ordinal, Flipped, WithInactive;
    var rs := AsRequests(ws);
    assert rs[..|rs|] == rs && rs[i] == AsRequest(ws[i]);
  }

  lemma CommittedElsewhere(t: Table, ws: seq<PendingWrite>, k: int)
    requires k in t.at && forall i :: 0 <= i < |ws| ==> ws[i].slot != k
    ensures k in Committed(t, ws).at && Committed(t, ws).at[k] == t.at[k]
  {
    hide Ordinal, Flipped, WithInactive;
    var rs := AsRequests(ws);
    assert rs[..|rs|] == rs;
    assert forall i :: 0 <= i < |rs| ==> rs[i].slot == ws[i].slot;
  }

  lemma CommitPublishes(t: Table, me: object, ws: seq<PendingWrite>)
    requires FirstCommitRefusal(t, me, ws, 0).None?
    ensures BatchPublished(t, Committed(t, ws), ws)
  {
    hide Ordinal, Flipped, WithInactive, FirstCommitRefusal, Committed, Published;
    CommittedKeys(t, ws);
    forall i | 0 <= i < |ws|
      ensures WritePublished(t, Committed(t, ws), ws[i])
    {
      CommitOrdinal(t, me, ws, i);
      CommittedAt(t, ws, i);
      PublishedWrite(t.at[ws[i].slot], ws[i]);
    }
    forall k | k in t.at && (forall i :: 0 <= i < |ws| ==> ws[i].slot != k)
      ensures k in Committed(t, ws).at && Committed(t, ws).at[k] == t.at[k]
    {
      CommittedElsewhere(t, ws, k);
    }
  }

  lemma PublishedWrite(s: Slot, w: PendingWrite)
    ensures Published(s, Flipped(WithInactive(s, w.value)), AsRequest(w), w.value)
  {
  }

  lemma CommittedKeys(t: Table, ws: seq<PendingWrite>)
    ensures Committed(t, ws).keys == t.keys
  {
  }

  /** Why read `k` of a batch is refused; views do not matter, an open mutable window does. */
  function ReadRefused(t: Table, me: object, rs: seq<Request>, k: nat): Option<HostError>
    requires k < |rs|
  {
    var r := rs[k];
    if r.owner != me || Ordinal(rs[..k], r.slot).Some? then Some(OwnerMismatch)
    else if r.slot !in t.at then Some(MissingSlot(r.slot))
    else
      var s := t.at[r.slot];
      if s.generation != r.generation || !s.leased then Some(StaleGeneration(r.slot, r.generation))
      else if s.window then Some(OutstandingBorrow(r.slot))
      else if s.descriptor != Some(r.descriptor) then Some(IncompatibleDescriptor)
      else if ActiveOf(s).None? then Some(MissingValue(r.descriptor.bufferId))
      else if !Matches(ActiveOf(s).value, r.descriptor) then Some(IncompatibleDescriptor)
      else None
  }

  function FirstReadRefusal(t: Table, me: object, rs: seq<Request>, k: nat): (r: Option<HostError>)
    requires k <= |rs|
    ensures r.None? <==> forall i :: k <= i < |rs| ==> ReadRefused(t, me, rs, i).None?
    decreases |rs| - k
  {
    if k == |rs| then None
    else if ReadRefused(t, me, rs, k).Some? then ReadRefused(t, me, rs, k)
    else FirstReadRefusal(t, me, rs, k + 1)
  }

  /** What a read callback is shown of one slot. */
  datatype Read = Read(ordinal: nat, bufferId: nat, tensor: Tensor)

  datatype ReadError<+E> = HostRead(error: HostError) | Callback(failure: E)

  /** The requested active tensors, in request order. */
  function Reads(t: Table, me: object, rs: seq<Request>): (shown: seq<Read>)
    requires FirstReadRefusal(t, me, rs, 0).None?
    ensures |shown| == |rs|
    ensures forall i :: 0 <= i < |rs| ==> ReadRefused(t, me, rs, i).None? && shown[i] == ReadAt(t, me, rs, i)
  {
    seq(|rs|, i requires 0 <= i < |rs| && ReadRefused(t, me, rs, i).None? => ReadAt(t, me, rs, i))
  }

  function ReadAt(t: Table, me: object, rs: seq<Request>, i: nat): (shown: Read)
    requires i < |rs| && ReadRefused(t, me, rs, i).None?
    ensures rs[i].slot in t.at && t.at[rs[i].slot].generation == rs[i].generation
    ensures ActiveOf(t.at[rs[i].slot]) == Some(shown.tensor) && Matches(shown.tensor, rs[i].descriptor)
    ensures shown.ordinal == i && shown.bufferId == rs[i].descriptor.bufferId
  {
    Read(i, rs[i].descriptor.bufferId, ActiveOf(t.at[rs[i].slot]).value)
  }
}
