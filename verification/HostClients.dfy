/** Short client runs that show what the host pool's guards do not prevent. */
module HostClients {
  import opened Wrappers
  import opened HostSlots
  import opened HostPool

  /** A lease of an unviewed slot with no window open. */
  ghost predicate Idle(lease: HostBufferLease)
    reads lease, lease.pool, lease.pool.leases
  {
    lease.pool.Valid() && lease in lease.pool.leases && !lease.released && lease.slot in lease.pool.table.at &&
    lease.pool.table.at[lease.slot].views == 0 && !lease.pool.table.at[lease.slot].window &&
    lease.pool.table.at[lease.slot].leased && lease.pool.table.at[lease.slot].generation == lease.generation
  }

  // What a step leaves in its slot

  lemma RecountedSlot(t: Table, k: int, n: nat)
    requires k in t.at
    ensures k in Recounted(t, k, n).at && Recounted(t, k, n).at[k] == t.at[k].(views := n)
  {
  }

  lemma ReflaggedSlot(t: Table, k: int, up: bool)
    requires k in t.at
    ensures k in Reflagged(t, k, up).at && Reflagged(t, k, up).at[k] == t.at[k].(window := up)
  {
  }

  lemma VacatedSlot(t: Table, k: int)
    requires k in t.at
    ensures k in Vacated(t, k).at && Vacated(t, k).at[k] == t.at[k].(leased := false, values := [None, None])
  {
  }

  lemma OverwrittenSlot(t: Table, k: int, v: Tensor)
    requires k in t.at
    ensures k in Overwritten(t, k, v).at
    ensures Overwritten(t, k, v).at[k] == t.at[k].(values := t.at[k].values[t.at[k].active := Some(v)])
  {
  }

  /** The first lease of a new pool. */
  method FirstLease(d: Descriptor) returns (lease: HostBufferLease)
    ensures fresh(lease) && fresh(lease.pool) && Idle(lease) && lease.slot == 0 && lease.descriptor == d
    ensures lease.pool.leases == {lease} && lease.pool.views == multiset{}
  {
    hide SlotsOk, ViewsOk, WindowsOk, IssuedOk, Sourced, Dated, Holds;
    var pool := new HostSlotPool();
    var leased := pool.Lease(Some(0), d);
    lease := leased.value;
  }

  /** A mutable window excludes neither a write, nor a view, nor a release of the same slot. */
  method WindowIsNotExclusive(d: Descriptor, value: Tensor)
    returns (wrote: bool, viewed: bool, released: bool, valid: bool)
    requires value.shape == d.shape && value.dtype == d.dtype
    ensures wrote && viewed && released && !valid
  {
    hide HostSlotPool.Valid, HostSlotPool.StrandedStay, Recounted, Reflagged, Vacated, Overwritten, Shows;
    var lease := FirstLease(d);
    var pool := lease.pool;
    ghost var t := pool.table;
    var window := lease.MutableWindow(0, 0);
    ReflaggedSlot(t, 0, true);
    wrote, viewed := WriteAndView(lease, value);
    assert pool.table.at[0].window;
    t := pool.table;
    var release := lease.Release();
    VacatedSlot(t, 0);
    var check := pool.Validate(window.value);
    return wrote, viewed, release.Ok?, check.Ok?;
  }

  /** A write and a passing view, which ask nothing of windows. */
  method WriteAndView(lease: HostBufferLease, value: Tensor) returns (wrote: bool, viewed: bool)
    requires lease.pool.Valid() && lease in lease.pool.leases && !lease.released && lease.slot in lease.pool.table.at
    requires lease.pool.table.at[lease.slot].views == 0
    requires value.shape == lease.descriptor.shape && value.dtype == lease.descriptor.dtype
    modifies lease.pool`table, lease.pool`views, lease.pool`written
    ensures wrote && viewed && lease.pool.Valid() && lease.pool.views == old(lease.pool.views)
    ensures lease.slot in lease.pool.table.at && lease.pool.table.at[lease.slot].views == 0
    ensures lease.pool.table.at[lease.slot].window == old(lease.pool.table.at[lease.slot].window)
  {
    hide HostSlotPool.Valid, HostSlotPool.StrandedStay, Recounted, Reflagged, Vacated, Overwritten, Shows;
    ghost var t, k := lease.pool.table, lease.slot;
    var write := lease.Write(value);
    OverwrittenSlot(t, k, value);
    t := lease.pool.table;
    var view := lease.View();
    RecountedSlot(t, k, 1);
    t := lease.pool.table;
    lease.pool.DropView(view.value);
    RecountedSlot(t, k, 0);
    return write.Ok?, view.Ok?;
  }

  /** Dropping a viewed lease leaves its slot leased with no owner, and leasing it again is refused. */
  method DropStrandsSlot(d: Descriptor) returns (pool: HostSlotPool, relet: bool)
    ensures fresh(pool) && pool.Valid() && pool.Stranded(0) && pool.views == multiset{} && !relet
  {
    hide HostSlotPool.Valid, HostSlotPool.StrandedStay, Recounted, Reflagged, Vacated, Overwritten, Shows;
    var lease := FirstLease(d);
    pool := lease.pool;
    ghost var t := pool.table;
    var view := lease.View();
    RecountedSlot(t, 0, 1);
    DropBoth(lease, view.value);
    relet := Relet(pool, 0, d);
  }

  /** A stranded slot asked for again: refused, and the pool stays as it was. */
  method Relet(pool: HostSlotPool, k: int, d: Descriptor) returns (relet: bool)
    requires pool.Valid() && pool.Stranded(k)
    modifies pool`table, pool`leases, pool`nextSentinel
    ensures !relet && pool.Valid() && pool.Stranded(k)
  {
    hide HostSlotPool.Valid, HostSlotPool.StrandedStay, Leased;
    pool.StrandedRefused(k, false, d);
    var again := pool.Lease(Some(k), d);
    return again.Ok?;
  }

  /** Drops a lease and then its view. */
  method DropBoth(lease: HostBufferLease, view: ReadView)
    requires lease.pool.Valid() && lease in lease.pool.leases && !lease.released && lease.slot in lease.pool.table.at
    requires view in lease.pool.views && view.slot == lease.slot && lease.pool.table.at[lease.slot].leased
    requires lease.pool.table.at[lease.slot].views == 1
    modifies lease, lease.pool`table, lease.pool`leases, lease.pool`views
    ensures lease.pool.Valid() && lease.pool.leases == old(lease.pool.leases) - {lease}
    ensures lease.pool.views == old(lease.pool.views) - multiset{view}
    ensures lease.slot in lease.pool.table.at && lease.pool.table.at[lease.slot].leased
  {
    hide HostSlotPool.Valid, HostSlotPool.StrandedStay, Recounted, Reflagged, Vacated, Overwritten, Shows;
    var pool := lease.pool;
    lease.Drop();
    ghost var t := pool.table;
    pool.DropView(view);
    RecountedSlot(t, lease.slot, 0);
  }

  /** A read window taken through a passing view. */
  method ReadWindow(lease: HostBufferLease) returns (window: Window)
    requires Idle(lease)
    modifies lease.pool`table, lease.pool`views, lease.pool`issued
    ensures Idle(lease) && window in lease.pool.issued
    ensures window == Window(lease.slot, lease.generation, 0, 0)
  {
    hide HostSlotPool.Valid, HostSlotPool.StrandedStay, Recounted, Reflagged, Vacated, Overwritten, Shows;
    ghost var t, k := lease.pool.table, lease.slot;
    var view := lease.View();
    RecountedSlot(t, k, 1);
    t := lease.pool.table;
    var taken := lease.pool.ByteWindow(view.value, 0, 0);
    lease.pool.DropView(view.value);
    RecountedSlot(t, k, 0);
    return taken.value;
  }

  /** A write, then the validation of a window of the slot's current generation. */
  method WriteAndValidate(lease: HostBufferLease, value: Tensor, window: Window) returns (valid: bool)
    requires Idle(lease) && window in lease.pool.issued
    requires window.slot == lease.slot && window.generation == lease.generation
    requires value.shape == lease.descriptor.shape && value.dtype == lease.descriptor.dtype
    modifies lease.pool`table, lease.pool`written
    ensures Idle(lease) && valid
  {
    hide HostSlotPool.Valid, HostSlotPool.StrandedStay, Recounted, Reflagged, Vacated, Overwritten, Shows;
    ghost var t := lease.pool.table;
    var write := lease.Write(value);
    OverwrittenSlot(t, lease.slot, value);
    var check := lease.pool.Validate(window);
    return check.Ok?;
  }

  /** A read window outlives its view and later writes: it is refused only when its generation ends. */
  method WindowSurvivesSteps(d: Descriptor, value: Tensor) returns (before: bool, after: bool)
    requires value.shape == d.shape && value.dtype == d.dtype
    ensures before && !after
  {
    hide HostSlotPool.Valid, HostSlotPool.StrandedStay, Recounted, Reflagged, Vacated, Overwritten, Shows;
    var lease := FirstLease(d);
    var window := ReadWindow(lease);
    before := WriteAndValidate(lease, value, window);
    ghost var t := lease.pool.table;
    var release := lease.Release();
    VacatedSlot(t, 0);
    var late := lease.pool.Validate(window);
    return before, late.Ok?;
  }
}
