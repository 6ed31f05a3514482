/** The generation-checked host pool as a mutable object, with every live handle accounted for. */
module HostPool {
  import opened Wrappers
  import opened HostSlots
  import opened HostCommits
  import opened Grants

  /** A live read view of one generation of a slot. */
  datatype ReadView = ReadView(slot: int, generation: nat, descriptor: Descriptor)

  /** A checked logical byte range of one generation of a slot. */
  datatype Window = Window(slot: int, generation: nat, first: nat, end: nat)

  /** A record that `value` was written to `slot` under `generation`. */
  datatype Mark = Mark(slot: int, generation: nat, value: Tensor)

  // What holds of every reachable pool

  /** A slot that has been leased at least once. */
  ghost predicate SlotOk(s: Slot) {
    s.descriptor.Some? && s.capacity == s.descriptor.value.bytes && 1 <= s.generation <= LIMIT &&
    (!s.leased ==> s.values == [None, None] && s.views == 0) && s.views <= LIMIT
  }

  ghost predicate SlotsOk(t: Table) {
    forall k :: k in t.at ==> SlotOk(t.at[k])
  }

  function ViewOf(k: int, s: Slot): ReadView {
    ReadView(k, s.generation, if s.descriptor.Some? then s.descriptor.value else Descriptor(0, Bool, [], 0, 0, 0))
  }

  /** Live views are all of their slot's current generation, and the slot counts exactly them. */
  ghost predicate ViewsOk(t: Table, views: multiset<ReadView>) {
    (forall v :: v in views ==> v.slot in t.at && v == ViewOf(v.slot, t.at[v.slot])) &&
    forall k :: k in t.at ==> views[ViewOf(k, t.at[k])] == t.at[k].views
  }

  /** A slot's window flag is up exactly when one live mutable window is out, and it is a current one. */
  ghost predicate WindowsOk(t: Table, windows: multiset<Window>) {
    Alone(windows) && (forall w :: w in windows ==> Flagged(t, w)) &&
      forall k :: k in t.at && t.at[k].window ==> Opened(windows, k)
  }

  /** No two live mutable windows share a slot. */
  ghost predicate Alone(windows: multiset<Window>) {
    (forall w :: windows[w] <= 1) && forall v, w :: v in windows && w in windows && v.slot == w.slot ==> v == w
  }

  ghost predicate Flagged(t: Table, w: Window) {
    w.slot in t.at && w.generation == t.at[w.slot].generation && t.at[w.slot].window
  }

  ghost predicate Opened(windows: multiset<Window>, k: int) {
    exists w :: w in windows && w.slot == k
  }

  /** Every window ever issued ends within its slot's capacity. */
  ghost predicate IssuedOk(t: Table, issued: set<Window>) {
    forall w :: w in issued ==>
      w.slot in t.at && w.end <= t.at[w.slot].capacity && w.generation <= t.at[w.slot].generation
  }

  /** Every stored tensor was written under its slot's current generation, or is that generation's zero. */
  ghost predicate Sourced(t: Table, written: set<Mark>) {
    forall k, b :: k in t.at && 0 <= b < 2 && t.at[k].values[b].Some? ==>
      SourcedValue(k, t.at[k], written, t.at[k].values[b].value)
  }

  ghost predicate SourcedValue(k: int, s: Slot, written: set<Mark>, v: Tensor) {
    Mark(k, s.generation, v) in written || (s.descriptor.Some? && ZeroTensor(s.descriptor.value) == Some(v))
  }

  /** No tensor has been written under a generation that has not begun. */
  ghost predicate Dated(t: Table, written: set<Mark>) {
    forall m :: m in written ==> m.slot in t.at && m.generation <= t.at[m.slot].generation
  }

  /** A lease handle agrees with its slot: an unreleased one holds it at its own generation. */
  ghost predicate Holds(t: Table, k: int, generation: nat, d: Descriptor, released: bool) {
    k in t.at && generation <= t.at[k].generation &&
    if released then !(t.at[k].leased && t.at[k].generation == generation)
    else t.at[k].leased && t.at[k].generation == generation && t.at[k].descriptor == Some(d)
  }

  /** Only bank contents and bank choice may differ, and only where a lease is out. */
  ghost predicate SameBooks(t: Table, u: Table) {
    t.keys == u.keys && forall k :: k in t.at ==> k in u.at && SameSlotBooks(t.at[k], u.at[k])
  }

  ghost predicate SameSlotBooks(s: Slot, r: Slot) {
    r == s.(values := r.values, active := r.active) && (s.leased || r == s)
  }

  lemma SameBooksKept(t: Table, u: Table, views: multiset<ReadView>, windows: multiset<Window>, issued: set<Window>)
    requires SameBooks(t, u) && SlotsOk(t) && ViewsOk(t, views) && WindowsOk(t, windows) && IssuedOk(t, issued)
    ensures SlotsOk(u) && ViewsOk(u, views) && WindowsOk(u, windows) && IssuedOk(u, issued)
    ensures forall k: int, g: nat, d, r :: Holds(t, k, g, d, r) ==> Holds(u, k, g, d, r)
  {
    hide SlotsOk, ViewsOk, WindowsOk, IssuedOk, Holds, SameSlotBooks;
    assert forall k :: k in u.at ==> k in u.keys && k in t.at;
    SameSlotsOk(t, u);
    SameViewsOk(t, u, views);
    SameWindowsOk(t, u, windows);
    SameIssuedOk(t, u, issued);
    forall k: int, g: nat, d, r | Holds(t, k, g, d, r)
      ensures Holds(u, k, g, d, r)
    {
      SameHolds(t, u, k, g, d, r);
    }
  }

  lemma SameSlotsOk(t: Table, u: Table)
    requires SameBooks(t, u) && SlotsOk(t) && forall k :: k in u.at ==> k in t.at
    ensures SlotsOk(u)
  {
  }

  lemma SameViewsOk(t: Table, u: Table, views: multiset<ReadView>)
    requires SameBooks(t, u) && ViewsOk(t, views) && forall k :: k in u.at ==> k in t.at
    ensures ViewsOk(u, views)
  {
    assert forall k :: k in u.at ==> ViewOf(k, u.at[k]) == ViewOf(k, t.at[k]);
  }

  lemma SameWindowsOk(t: Table, u: Table, windows: multiset<Window>)
    requires SameBooks(t, u) && WindowsOk(t, windows) && forall k :: k in u.at ==> k in t.at
    ensures WindowsOk(u, windows)
  {
    hide Alone, Opened;
    assert forall w :: w in windows ==> Flagged(t, w);
  }

  lemma SameIssuedOk(t: Table, u: Table, issued: set<Window>)
    requires SameBooks(t, u) && IssuedOk(t, issued)
    ensures IssuedOk(u, issued)
  {
  }

  lemma SameHolds(t: Table, u: Table, k: int, g: nat, d: Descriptor, r: bool)
    requires SameBooks(t, u) && Holds(t, k, g, d, r)
    ensures Holds(u, k, g, d, r)
  {
  }

  ghost predicate HoldsKept(t: Table, u: Table) {
    forall k: int, g: nat, d: Descriptor, r: bool :: Holds(t, k, g, d, r) ==> Holds(u, k, g, d, r)
  }

  // What replacing one slot does to each invariant

  lemma PutSlots(t: Table, k: int, s: Slot)
    requires SlotsOk(t) && SlotOk(s)
    ensures SlotsOk(Put(t, k, s))
  {
    hide Put, SlotOk;
  }

  /** Replacing a slot at its own generation antedates no mark, and a mark of that generation is in date. */
  lemma PutDated(t: Table, k: int, s: Slot, written: set<Mark>)
    requires k in t.at && s.generation == t.at[k].generation && Dated(t, written)
    ensures Dated(Put(t, k, s), written)
    ensures forall v :: Dated(Put(t, k, s), written + {Mark(k, s.generation, v)})
  {
  }

  lemma PutHolds(t: Table, k: int, s: Slot)
    requires k in t.at && s.generation == t.at[k].generation && s.leased == t.at[k].leased
    requires s.descriptor == t.at[k].descriptor
    ensures HoldsKept(t, Put(t, k, s))
  {
    hide Put;
  }

  lemma PutViews(t: Table, k: int, s: Slot, views: multiset<ReadView>)
    requires ViewsOk(t, views) && k in t.at && ViewOf(k, s) == ViewOf(k, t.at[k]) && s.views == t.at[k].views
    ensures ViewsOk(Put(t, k, s), views)
  {
    hide Put;
  }

  lemma PutWindows(t: Table, k: int, s: Slot, windows: multiset<Window>)
    requires WindowsOk(t, windows) && k in t.at && s.window == t.at[k].window && s.generation == t.at[k].generation
    ensures WindowsOk(Put(t, k, s), windows)
  {
    hide Put, Alone, Opened;
    assert forall w :: w in windows ==> Flagged(t, w);
  }

  lemma PutIssued(t: Table, k: int, s: Slot, issued: set<Window>)
    requires IssuedOk(t, issued) && k in t.at && s.capacity == t.at[k].capacity && s.generation >= t.at[k].generation
    ensures IssuedOk(Put(t, k, s), issued)
  {
    hide Put;
  }

  /** Every bank of the new slot is sourced. */
  ghost predicate SlotSourced(k: int, s: Slot, written: set<Mark>) {
    forall b :: 0 <= b < 2 && s.values[b].Some? ==> SourcedValue(k, s, written, s.values[b].value)
  }

  lemma PutSourced(t: Table, k: int, s: Slot, before: set<Mark>, written: set<Mark>)
    requires Sourced(t, before) && before <= written && SlotSourced(k, s, written)
    ensures Sourced(Put(t, k, s), written)
  {
    hide Put, ZeroTensor;
    var u := Put(t, k, s);
    forall j, b | j in u.at && 0 <= b < 2 && u.at[j].values[b].Some?
      ensures SourcedValue(j, u.at[j], written, u.at[j].values[b].value)
    {
      if j != k {
        assert SourcedValue(j, t.at[j], before, t.at[j].values[b].value);
      }
    }
  }

  lemma SlotSourcedAt(t: Table, k: int, written: set<Mark>)
    requires Sourced(t, written) && k in t.at
    ensures SlotSourced(k, t.at[k], written)
  {
  }

  // The steps

  /** A write to one bank of a leased slot. */
  lemma ValueWritten(t: Table, k: int, b: nat, v: Tensor, views: multiset<ReadView>, windows: multiset<Window>,
                     issued: set<Window>, written: set<Mark>)
    requires k in t.at && t.at[k].leased && b < 2
    requires SlotsOk(t) && ViewsOk(t, views) && WindowsOk(t, windows) && IssuedOk(t, issued) && Sourced(t, written)
    ensures var s := t.at[k]; var u := Put(t, k, s.(values := s.values[b := Some(v)]));
            SlotsOk(u) && ViewsOk(u, views) && WindowsOk(u, windows) && IssuedOk(u, issued) &&
            Sourced(u, written + {Mark(k, s.generation, v)}) && HoldsKept(t, u)
  {
    hide Put, ViewsOk, WindowsOk, IssuedOk, HoldsKept, Sourced, ZeroTensor;
    var s := t.at[k].(values := t.at[k].values[b := Some(v)]);
    assert SlotOk(t.at[k]);
    SlotSourcedAt(t, k, written);
    PutSlots(t, k, s);
    PutHolds(t, k, s);
    PutViews(t, k, s, views);
    PutWindows(t, k, s, windows);
    PutIssued(t, k, s, issued);
    PutSourced(t, k, s, written, written + {Mark(k, s.generation, v)});
  }

  lemma PutViewsMoved(t: Table, k: int, n: nat, views: multiset<ReadView>, moved: multiset<ReadView>)
    requires ViewsOk(t, views) && k in t.at && moved == views[ViewOf(k, t.at[k]) := n]
    ensures ViewsOk(Put(t, k, t.at[k].(views := n)), moved)
  {
    hide Put;
    var u := Put(t, k, t.at[k].(views := n));
    forall v | v in moved
      ensures v.slot in u.at && v == ViewOf(v.slot, u.at[v.slot])
    {
      assert v in views || v == ViewOf(k, t.at[k]);
    }
    forall j | j in u.at
      ensures moved[ViewOf(j, u.at[j])] == u.at[j].views
    {
      assert ViewOf(j, u.at[j]) == ViewOf(j, t.at[j]);
    }
  }

  /** One more or one fewer live view of a leased slot. */
  lemma ViewsMoved(t: Table, k: int, n: nat, views: multiset<ReadView>, moved: multiset<ReadView>,
                   windows: multiset<Window>,
                   issued: set<Window>, written: set<Mark>)
    requires k in t.at && t.at[k].leased && n <= LIMIT && moved == views[ViewOf(k, t.at[k]) := n]
    requires SlotsOk(t) && ViewsOk(t, views) && WindowsOk(t, windows) && IssuedOk(t, issued) && Sourced(t, written)
    ensures var u := Put(t, k, t.at[k].(views := n));
            SlotsOk(u) && ViewsOk(u, moved) && WindowsOk(u, windows) && IssuedOk(u, issued) && Sourced(u, written) &&
            HoldsKept(t, u)
  {
    hide Put, ViewsOk, WindowsOk, IssuedOk, HoldsKept, Sourced, ZeroTensor;
    var s := t.at[k].(views := n);
    assert SlotOk(t.at[k]);
    SlotSourcedAt(t, k, written);
    PutSlots(t, k, s);
    PutHolds(t, k, s);
    PutViewsMoved(t, k, n, views, moved);
    PutWindows(t, k, s, windows);
    PutIssued(t, k, s, issued);
    PutSourced(t, k, s, written, written);
  }

  lemma AloneWith(windows: multiset<Window>, w: Window)
    requires Alone(windows) && !Opened(windows, w.slot)
    ensures Alone(windows + multiset{w}) && Opened(windows + multiset{w}, w.slot)
    ensures forall k :: Opened(windows, k) ==> Opened(windows + multiset{w}, k)
    ensures forall x :: x in windows + multiset{w} <==> x == w || x in windows
  {
    var all := windows + multiset{w};
    assert w in all && w !in windows;
    forall k | Opened(windows, k)
      ensures Opened(all, k)
    {
      var x :| x in windows && x.slot == k;
      assert x in all;
    }
  }

  lemma AloneWithout(windows: multiset<Window>, w: Window)
    requires Alone(windows) && w in windows
    ensures Alone(windows - multiset{w}) && !Opened(windows - multiset{w}, w.slot)
    ensures forall k :: k != w.slot && Opened(windows, k) ==> Opened(windows - multiset{w}, k)
    ensures forall x :: x in windows - multiset{w} <==> x != w && x in windows
  {
    var rest := windows - multiset{w};
    forall k | k != w.slot && Opened(windows, k)
      ensures Opened(rest, k)
    {
      var x :| x in windows && x.slot == k;
      assert x in rest;
    }
  }

  lemma PutWindowOpened(t: Table, k: int, w: Window, windows: multiset<Window>)
    requires WindowsOk(t, windows) && k in t.at && !t.at[k].window && w.slot == k && w.generation == t.at[k].generation
    ensures WindowsOk(Put(t, k, t.at[k].(window := true)), windows + multiset{w})
  {
    hide Put, Alone;
    NotOpened(t, k, windows);
    AloneWith(windows, w);
  }

  lemma NotOpened(t: Table, k: int, windows: multiset<Window>)
    requires WindowsOk(t, windows) && (k in t.at ==> !t.at[k].window)
    ensures !Opened(windows, k) && forall w :: w in windows ==> w.slot != k
  {
    assert forall w :: w in windows ==> Flagged(t, w);
  }

  lemma PutWindowClosed(t: Table, w: Window, windows: multiset<Window>)
    requires WindowsOk(t, windows) && w in windows
    ensures Flagged(t, w) && WindowsOk(Put(t, w.slot, t.at[w.slot].(window := false)), windows - multiset{w})
  {
    hide Put, Alone;
    AloneWithout(windows, w);
    assert Flagged(t, w);
    var rest := windows - multiset{w};
    assert forall x :: x in rest ==> x.slot != w.slot && Flagged(t, x);
  }

  /** A mutable window of slot `k` goes out, or the live one comes back. */
  lemma WindowMoved(t: Table, k: int, up: bool, moved: multiset<Window>, views: multiset<ReadView>,
                    windows: multiset<Window>,
                    issued: set<Window>, written: set<Mark>)
    requires k in t.at && WindowsOk(Put(t, k, t.at[k].(window := up)), moved)
    requires SlotsOk(t) && ViewsOk(t, views) && WindowsOk(t, windows) && IssuedOk(t, issued) && Sourced(t, written)
    ensures var u := Put(t, k, t.at[k].(window := up));
            SlotsOk(u) && ViewsOk(u, views) && WindowsOk(u, moved) && IssuedOk(u, issued) && Sourced(u, written) &&
            HoldsKept(t, u)
  {
    hide Put, ViewsOk, WindowsOk, IssuedOk, HoldsKept, Sourced, ZeroTensor;
    var s := t.at[k].(window := up);
    assert SlotOk(t.at[k]);
    SlotSourcedAt(t, k, written);
    PutSlots(t, k, s);
    PutHolds(t, k, s);
    PutViews(t, k, s, views);
    PutIssued(t, k, s, issued);
    PutSourced(t, k, s, written, written);
  }

  /** A lease with no view is released: its banks are emptied and its generation stays behind. */
  lemma SlotReleased(t: Table, k: int, views: multiset<ReadView>, windows: multiset<Window>, issued: set<Window>,
                     written: set<Mark>)
    requires k in t.at && t.at[k].leased && t.at[k].views == 0
    requires SlotsOk(t) && ViewsOk(t, views) && WindowsOk(t, windows) && IssuedOk(t, issued) && Sourced(t, written)
    ensures var u := Put(t, k, t.at[k].(leased := false, values := [None, None]));
            SlotsOk(u) && ViewsOk(u, views) && WindowsOk(u, windows) && IssuedOk(u, issued) && Sourced(u, written) &&
            (forall j: int, g: nat, d: Descriptor, r: bool ::
               Holds(t, j, g, d, r) && (j != k || r) ==> Holds(u, j, g, d, r)) &&
            Holds(u, k, t.at[k].generation, t.at[k].descriptor.value, true)
  {
    hide Put, ViewsOk, WindowsOk, IssuedOk, Sourced, ZeroTensor;
    var s := t.at[k].(leased := false, values := [None, None]);
    assert SlotOk(t.at[k]);
    PutSlots(t, k, s);
    PutViews(t, k, s, views);
    PutWindows(t, k, s, windows);
    PutIssued(t, k, s, issued);
    PutSourced(t, k, s, written, written);
  }

  /** The slot a successful lease leaves behind. */
  function LeasedSlot(before: Slot, d: Descriptor): Slot {
    before.(generation := before.generation + 1, descriptor := Some(d), values := [None, None], active := 0,
            leased := true)
  }

  lemma PutViewsLeased(t: Table, k: int, s: Slot, views: multiset<ReadView>)
    requires ViewsOk(t, views) && s.views == 0
    requires k in t.at ==> t.at[k].views == 0
    requires forall v :: v in views ==> v != ViewOf(k, s)
    ensures ViewsOk(Put(t, k, s), views)
  {
    hide Put;
    assert k in t.at ==> views[ViewOf(k, t.at[k])] == 0;
  }

  lemma PutWindowsLeased(t: Table, k: int, s: Slot, windows: multiset<Window>)
    requires WindowsOk(t, windows) && !s.window && (k in t.at ==> !t.at[k].window)
    ensures WindowsOk(Put(t, k, s), windows)
  {
    hide Put, Alone, Opened;
    assert forall w :: w in windows ==> Flagged(t, w);
  }

  /** A new lease raises the generation past every handle of the slot. */
  lemma SlotLeased(t: Table, k: int, d: Descriptor, views: multiset<ReadView>, windows: multiset<Window>,
                   issued: set<Window>,
                   written: set<Mark>)
    requires SlotsOk(t) && ViewsOk(t, views) && WindowsOk(t, windows) && IssuedOk(t, issued) && Sourced(t, written)
    requires k in t.at ==>
               !t.at[k].leased && !t.at[k].window && t.at[k].generation < LIMIT && t.at[k].capacity == d.bytes
    ensures var s := LeasedSlot(if k in t.at then t.at[k] else Blank(d.bytes), d); var u := Put(t, k, s);
            SlotsOk(u) && ViewsOk(u, views) && WindowsOk(u, windows) && IssuedOk(u, issued) && Sourced(u, written) &&
            HoldsKept(t, u) && Holds(u, k, s.generation, d, false)
  {
    hide Put, ViewsOk, WindowsOk, Sourced, ZeroTensor;
    var s := LeasedSlot(if k in t.at then t.at[k] else Blank(d.bytes), d);
    assert k in t.at ==> SlotOk(t.at[k]);
    PutSlots(t, k, s);
    NoViewOf(t, k, s, views);
    PutViewsLeased(t, k, s, views);
    PutWindowsLeased(t, k, s, windows);
    PutSourced(t, k, s, written, written);
  }

  lemma NoViewOf(t: Table, k: int, s: Slot, views: multiset<ReadView>)
    requires ViewsOk(t, views) && (k in t.at ==> t.at[k].views == 0)
    ensures forall v :: v in views ==> v != ViewOf(k, s)
  {
    assert k in t.at ==> views[ViewOf(k, t.at[k])] == 0;
  }

  // A transaction keeps the books

  /** `u` follows from `t` by changes to banks of leased slots, and everything it stores is sourced. */
  ghost predicate Evolved(t: Table, u: Table, written: set<Mark>) {
    SameBooks(t, u) && Sourced(u, written)
  }

  lemma EvolvedAfter(t: Table, u: Table, v: Table, before: set<Mark>, written: set<Mark>)
    requires Evolved(t, u, before) && Evolved(u, v, written)
    ensures Evolved(t, v, written)
  {
    forall k | k in t.at
      ensures k in v.at && SameSlotBooks(t.at[k], v.at[k])
    {
      assert SameSlotBooks(t.at[k], u.at[k]) && SameSlotBooks(u.at[k], v.at[k]);
    }
  }

  lemma EvolvedPointwise(t: Table, u: Table, written: set<Mark>)
    requires t.keys == u.keys
    requires forall k :: k in t.at ==> k in u.at && SameSlotBooks(t.at[k], u.at[k]) && SlotSourced(k, u.at[k], written)
    ensures Evolved(t, u, written)
  {
    hide SameSlotBooks, SourcedValue;
    forall k, b | k in u.at && 0 <= b < 2 && u.at[k].values[b].Some?
      ensures SourcedValue(k, u.at[k], written, u.at[k].values[b].value)
    {
      assert k in u.keys && k in t.at;
    }
  }

  lemma ReadySourced(k: int, s: Slot, r: Request, written: set<Mark>)
    requires Unfit(s, r).None? && SlotSourced(k, s, written)
    ensures SameSlotBooks(s, Ready(s, r)) && SlotSourced(k, Ready(s, r), written)
  {
    hide ZeroTensor, Matches;
  }

  lemma PreparedEvolved(t: Table, me: object, rs: seq<Request>, n: nat, written: set<Mark>)
    requires Sourced(t, written) && n <= |rs| && forall i :: 0 <= i < n ==> Refused(t, me, rs, i).None?
    ensures Evolved(t, Prepared(t, rs, n), written)
  {
    hide SameSlotBooks, SlotSourced, Ready, Unfit, Evolved;
    var u := Prepared(t, rs, n);
    forall k | k in t.at
      ensures SameSlotBooks(t.at[k], u.at[k]) && SlotSourced(k, u.at[k], written)
    {
      SlotSourcedAt(t, k, written);
      SameSlotSelf(t.at[k]);
      match Ordinal(rs[..n], k)
      case None =>
      case Some(o) =>
        assert Refused(t, me, rs, o).None?;
        ReadySourced(k, t.at[k], rs[o], written);
    }
    EvolvedPointwise(t, u, written);
  }

  lemma SameSlotSelf(s: Slot)
    ensures SameSlotBooks(s, s)
  {
  }

  /** What the callback wrote, by the slot and generation it was written for. */
  ghost function StageMarks(rs: seq<Request>, written: seq<Tensor>): set<Mark> {
    set i: nat | i < |rs| && i < |written| && !rs[i].retain :: Mark(rs[i].slot, rs[i].generation, written[i])
  }

  /** The callback's scribbles go to leased slots of the requested generations. */
  lemma ScribbledEvolved(t: Table, rs: seq<Request>, banks: seq<Bank>, out: seq<Tensor>, written: set<Mark>)
    requires Sourced(t, written) && Staffed(t, rs) && banks == Banks(t, rs)
    requires forall i :: 0 <= i < |rs| ==> t.at[rs[i].slot].leased && t.at[rs[i].slot].generation == rs[i].generation
    ensures Evolved(t, Scribbled(t, rs, Successors(banks, out), |rs|), written + StageMarks(rs, out))
  {
    hide Evolved, Sourced;
    var u, values, marks := Scribbled(t, rs, Successors(banks, out), |rs|), Successors(banks, out),
      written + StageMarks(rs, out);
    assert rs[..|rs|] == rs;
    forall k | k in t.at
      ensures SameSlotBooks(t.at[k], u.at[k]) && SlotSourced(k, u.at[k], marks)
    {
      SlotSourcedAt(t, k, written);
      match Ordinal(rs, k)
      case None =>
      case Some(o) =>
        if !rs[o].retain {
          ScribbleSourced(k, t.at[k], rs, o, banks[o], out, written);
        }
    }
    EvolvedPointwise(t, u, marks);
  }

  lemma ScribbleSourced(k: int, s: Slot, rs: seq<Request>, o: nat, b: Bank, out: seq<Tensor>, written: set<Mark>)
    requires SlotSourced(k, s, written) && s.leased && o < |rs| && rs[o].slot == k && rs[o].generation == s.generation
    requires !rs[o].retain && b.inactive.Some? && b.inactive == InactiveOf(s)
    ensures var u := WithInactive(s, Successor(b, out, o));
            SameSlotBooks(s, u) && SlotSourced(k, u, written + StageMarks(rs, out))
  {
    hide ZeroTensor;
    var marks := written + StageMarks(rs, out);
    if o < |out| {
      assert Mark(k, s.generation, out[o]) in StageMarks(rs, out);
    } else {
      assert SourcedValue(k, s, written, s.values[1 - s.active].value);
    }
    assert forall c :: 0 <= c < 2 && s.values[c].Some? ==> SourcedValue(k, s, marks, s.values[c].value);
  }

  lemma FlippedSourced(k: int, s: Slot, written: set<Mark>)
    requires SlotSourced(k, s, written)
    ensures SlotSourced(k, Flipped(s), written) && (s.leased ==> SameSlotBooks(s, Flipped(s)))
  {
    hide ZeroTensor;
    assert forall v :: SourcedValue(k, s, written, v) ==> SourcedValue(k, Flipped(s), written, v);
  }

  lemma ExchangedEvolved(t: Table, rs: seq<Request>, written: set<Mark>)
    requires Sourced(t, written)
    requires forall i :: 0 <= i < |rs| ==> rs[i].slot in t.at && t.at[rs[i].slot].leased
    ensures Evolved(t, Exchanged(t, rs, |rs|), written)
  {
    hide Evolved, SlotSourced, Sourced, Flipped, Ordinal, SameSlotBooks;
    var u := Exchanged(t, rs, |rs|);
    assert rs[..|rs|] == rs;
    forall k | k in t.at
      ensures SameSlotBooks(t.at[k], u.at[k]) && SlotSourced(k, u.at[k], written)
    {
      SlotSourcedAt(t, k, written);
      SameSlotSelf(t.at[k]);
      FlippedSourced(k, t.at[k], written);
    }
    EvolvedPointwise(t, u, written);
  }

  lemma EvolvedSourced(t: Table, u: Table, written: set<Mark>)
    requires Evolved(t, u, written)
    ensures Sourced(u, written)
  {
  }

  /** An admitted slot is leased at the requested generation, before and after it is readied. */
  lemma AdmittedLeased(t: Table, me: object, rs: seq<Request>, i: nat)
    requires Admit(t, me, rs).Open? && i < |rs|
    ensures var p := Admit(t, me, rs).table; var k := rs[i].slot;
            k in t.at && k in p.at && p.at[k].leased && p.at[k].generation == rs[i].generation == t.at[k].generation
  {
    hide FirstMissing, Banks, Ordinal, Ready;
    AdmitOpens(t, me, rs);
    AdmittedOrdinal(t, me, rs, i);
    PreparedEvolved(t, me, rs, |rs|, AllMarks(t));
    assert SameSlotBooks(t.at[rs[i].slot], Prepared(t, rs, |rs|).at[rs[i].slot]);
  }

  /** Enough marks to source every value a table stores. */
  ghost function AllMarks(t: Table): (marks: set<Mark>)
    ensures Sourced(t, marks)
  {
    var marks := set k, b | k in t.at && 0 <= b < 2 && t.at[k].values[b].Some? ::
      Mark(k, t.at[k].generation, t.at[k].values[b].value);
    assert Sourced(t, marks);
    marks
  }

  lemma ConcludeEvolved<T, E>(t: Table, me: object, rs: seq<Request>, out: Staged<T, E>, written: set<Mark>)
    requires Admit(t, me, rs).Open? && Evolved(t, Admit(t, me, rs).table, written)
    ensures var p, banks := Admit(t, me, rs).table, Admit(t, me, rs).banks;
            |rs| == |banks| &&
            Evolved(t, Conclude(p, rs, banks, out).table, written + StageMarks(rs, out.written))
  {
    hide Evolved, Sourced, Admit, Prepared, Scribbled, Exchanged, Agreeing, StageMarks;
    var p, banks := Admit(t, me, rs).table, Admit(t, me, rs).banks;
    AdmitOpens(t, me, rs);
    forall i | 0 <= i < |rs|
      ensures rs[i].slot in p.at && p.at[rs[i].slot].leased && p.at[rs[i].slot].generation == rs[i].generation
    {
      AdmittedLeased(t, me, rs, i);
    }
    EvolvedSourced(t, p, written);
    var marks, u := written + StageMarks(rs, out.written), Scribbled(p, rs, Successors(banks, out.written), |rs|);
    ScribbledEvolved(p, rs, banks, out.written, written);
    EvolvedAfter(t, p, u, written, marks);
    EvolvedSourced(t, u, marks);
    forall i | 0 <= i < |rs|
      ensures rs[i].slot in u.at && u.at[rs[i].slot].leased
    {
      StillLeased(p, u, marks, rs[i].slot);
    }
    ExchangedEvolved(u, rs, marks);
    EvolvedAfter(t, u, Exchanged(u, rs, |rs|), marks, marks);
  }

  lemma StillLeased(t: Table, u: Table, written: set<Mark>, k: int)
    requires Evolved(t, u, written) && k in t.at && t.at[k].leased
    ensures k in u.at && u.at[k].leased
  {
    assert SameSlotBooks(t.at[k], u.at[k]);
  }

  /** Every leased slot stays leased, at its generation. */
  ghost predicate LeasedKept(t: Table, u: Table) {
    forall k :: k in t.at && t.at[k].leased ==> k in u.at && u.at[k].leased && u.at[k].generation == t.at[k].generation
  }

  lemma EvolvedLeased(t: Table, u: Table, written: set<Mark>)
    requires Evolved(t, u, written)
    ensures LeasedKept(t, u)
  {
    hide Sourced;
    assert forall k :: k in t.at ==> SameSlotBooks(t.at[k], u.at[k]);
  }

  /** Every transaction, whatever its outcome, evolves the table and marks what its callback wrote. */
  lemma TransactEvolved<T, E>(t: Table, me: object, rs: seq<Request>, stage: seq<Bank> -> Staged<T, E>,
                              written: set<Mark>)
    requires Sourced(t, written)
    ensures Evolved(t, Transact(t, me, rs, stage).table, written + Marks(t, me, rs, stage))
  {
    hide Evolved, Sourced, Conclude, Prepared, Refused;
    match Admit(t, me, rs)
    case Rejected(_, _) =>
      PreparedEvolved(t, me, rs, Admitted(t, me, rs, 0), written);
      assert written + {} == written;
    case Open(p, banks) =>
      AdmitOpens(t, me, rs);
      PreparedEvolved(t, me, rs, |rs|, written);
      ConcludeEvolved(t, me, rs, stage(banks), written);
  }

  /** What a transaction's callback wrote, if it was reached. */
  ghost function Marks<T, E>(t: Table, me: object, rs: seq<Request>, stage: seq<Bank> -> Staged<T, E>): set<Mark> {
    match Admit(t, me, rs)
    case Rejected(_, _) => {}
    case Open(_, banks) => StageMarks(rs, stage(banks).written)
  }

  /** The callback writes under the slots' current generations only. */
  lemma MarksDated<T, E>(t: Table, me: object, rs: seq<Request>, stage: seq<Bank> -> Staged<T, E>)
    ensures Dated(t, Marks(t, me, rs, stage))
  {
    hide Admit;
    if Admit(t, me, rs).Open? {
      forall i | 0 <= i < |rs|
        ensures rs[i].slot in t.at && t.at[rs[i].slot].generation == rs[i].generation
      {
        AdmittedLeased(t, me, rs, i);
      }
    }
  }

  lemma DatedAfter(t: Table, u: Table, before: set<Mark>, marks: set<Mark>, written: set<Mark>)
    requires Dated(t, before) && Dated(t, marks) && Evolved(t, u, written)
    ensures Dated(u, before + marks)
  {
    assert forall k :: k in t.at ==> k in u.at && SameSlotBooks(t.at[k], u.at[k]);
  }

  /** Why a range request is refused before any lock is taken. */
  function RangeRefusal(d: Descriptor, offset: nat, bytes: nat): Option<HostError> {
    if offset + bytes > LIMIT then Some(Overflow)
    else if offset + bytes > d.bytes then Some(LogicalBounds(offset + bytes, d.bytes))
    else None
  }

  /** Why a lease of slot `k` is refused. */
  function LeaseRefusal(t: Table, k: int, sentinel: bool, d: Descriptor): Option<HostError> {
    if k !in t.at then None
    else
      var s := t.at[k];
      if s.leased || s.views != 0 || s.window then Some(OutstandingBorrow(k))
      else if !sentinel && s.capacity != d.bytes then Some(LogicalBounds(d.bytes, s.capacity))
      else if s.descriptor.Some? && s.descriptor.value.(bufferId := d.bufferId) != d then Some(IncompatibleDescriptor)
      else if s.generation == LIMIT then Some(Overflow)
      else None
  }

  /** A refusal is exactly a slot that may not be leased, and a held slot is refused before its size and kind are. */
  lemma LeaseMeans(t: Table, k: int, sentinel: bool, d: Descriptor)
    ensures LeaseRefusal(t, k, sentinel, d).None? <==> Leasable(t, k, sentinel, d)
    ensures LeaseRefusal(t, k, sentinel, d).Some? ==> k in t.at
    ensures k in t.at && !Leasable(t, k, sentinel, d) ==>
              var s := t.at[k];
              LeaseRefusal(t, k, sentinel, d) ==
              Some(if s.leased || s.views != 0 || s.window then OutstandingBorrow(k)
                   else if !sentinel && s.capacity != d.bytes then LogicalBounds(d.bytes, s.capacity)
                   else if s.generation == 0xFFFF_FFFF_FFFF_FFFF &&
                     Leasable(Put(t, k, s.(generation := 0)), k, sentinel, d)
                   then Overflow else IncompatibleDescriptor)
    ensures Began(t, Leased(t, k, d), k, d)
  {
  }

  /**
   * A new generation: one past the last, leased under the descriptor, with both banks empty, and no other slot changed.
   */
  ghost predicate Began(t: Table, u: Table, k: int, d: Descriptor) {
    k in u.at && (forall j :: j in t.at && j != k ==> j in u.at && u.at[j] == t.at[j]) &&
    var s := u.at[k];
    s.leased && s.descriptor == Some(d) && s.values == [None, None] && s.active == 0 &&
    s.generation == (if k in t.at then t.at[k].generation else 0) + 1 &&
    s.capacity == (if k in t.at then t.at[k].capacity else d.bytes) &&
    s.views == (if k in t.at then t.at[k].views else 0) && s.window == (k in t.at && t.at[k].window)
  }

  /** A range is refused exactly when it ends beyond the descriptor's bytes. */
  lemma RangeMeans(d: Descriptor, offset: nat, bytes: nat)
    ensures RangeRefusal(d, offset, bytes).None? <==> offset + bytes <= d.bytes && offset + bytes <= LIMIT
    ensures offset + bytes <= LIMIT && d.bytes < offset + bytes ==>
              RangeRefusal(d, offset, bytes) == Some(LogicalBounds(offset + bytes, d.bytes))
  {
  }

  // The table after each step

  function Recounted(t: Table, k: int, n: nat): Table
    requires k in t.at
  {
    Put(t, k, t.at[k].(views := n))
  }

  function Reflagged(t: Table, k: int, up: bool): Table
    requires k in t.at
  {
    Put(t, k, t.at[k].(window := up))
  }

  function Vacated(t: Table, k: int): Table
    requires k in t.at
  {
    Put(t, k, t.at[k].(leased := false, values := [None, None]))
  }

  /** Each step changes its one field of its one slot, and an ended generation leaves both banks empty. */
  lemma StepsMean(t: Table, k: int, n: nat, up: bool)
    requires k in t.at
    ensures Recounted(t, k, n).at == t.at[k := t.at[k].(views := n)] && Recounted(t, k, n).keys == t.keys
    ensures Reflagged(t, k, up).at == t.at[k := t.at[k].(window := up)] && Reflagged(t, k, up).keys == t.keys
    ensures Vacated(t, k).at == t.at[k := t.at[k].(leased := false, values := [None, None])]
    ensures Vacated(t, k).keys == t.keys && ActiveOf(t.at[k]) == t.at[k].values[t.at[k].active]
  {
  }

  /** The table after a successful lease: a slot seen for the first time gets the descriptor's capacity. */
  function Leased(t: Table, k: int, d: Descriptor): Table {
    Put(t, k, LeasedSlot(if k in t.at then t.at[k] else Blank(d.bytes), d))
  }

  function Overwritten(t: Table, k: int, v: Tensor): Table
    requires k in t.at
  {
    var s := t.at[k];
    Put(t, k, s.(values := s.values[s.active := Some(v)]))
  }

  /** Slot `k` now shows `v`, beside what its other bank held, and nothing else changed. */
  ghost predicate Shows(t: Table, u: Table, k: int, v: Tensor) {
    k in t.at && k in u.at && u.keys == t.keys &&
      (forall j :: j in t.at && j != k ==> j in u.at && u.at[j] == t.at[j]) &&
    var s, x := t.at[k], u.at[k];
    x == s.(values := x.values) && x.values[x.active] == Some(v) && x.values[1 - x.active] == s.values[1 - s.active]
  }

  lemma WriteShows(t: Table, k: int, v: Tensor)
    requires k in t.at
    ensures Shows(t, Overwritten(t, k, v), k, v)
  {
  }

  /** The owner of one generation of one slot. */
  class HostBufferLease {
    const pool: HostSlotPool
    const slot: int
    const generation: nat
    const descriptor: Descriptor
    var released: bool

    constructor (pool: HostSlotPool, slot: int, generation: nat, descriptor: Descriptor)
      ensures this.pool == pool && this.slot == slot && this.generation == generation && this.descriptor == descriptor
      ensures !released
    {
      this.pool, this.slot, this.generation, this.descriptor := pool, slot, generation, descriptor;
      released := false;
    }

    /** Replaces the active value, whatever views or windows are out. */
    method Write(value: Tensor) returns (r: Result<(), HostError>)
      requires pool.Valid() && this in pool.leases
      modifies pool`table, pool`written
      ensures pool.Valid() && pool.StrandedStay()
      ensures pool.written == old(pool.written) + if r.Ok? then {Mark(slot, generation, value)} else {}
      ensures r == if released then Err(StaleGeneration(slot, generation))
                   else if value.shape != descriptor.shape || value.dtype != descriptor.dtype
                     then Err(IncompatibleDescriptor)
                   else Ok(())
      ensures if r.Ok? then
                slot in old(pool.table.at) && pool.table == Overwritten(old(pool.table), slot, value) &&
                Shows(old(pool.table), pool.table, slot, value)
              else pool.table == old(pool.table)
    {
      hide SlotsOk, ViewsOk, WindowsOk, IssuedOk, Sourced, Holds, Put, Dated, Shows;
      LeaseFacts(pool.table, slot, generation, descriptor, released);
      var live := pool.LiveSlot(slot, generation);
      if live.Err? {
        return Err(live.error);
      }
      if value.shape != descriptor.shape || value.dtype != descriptor.dtype {
        return Err(IncompatibleDescriptor);
      }
      var s := live.value;
      ValueWritten(pool.table, slot, s.active, value, pool.views, pool.windows, pool.issued, pool.written);
      PutDated(pool.table, slot, s.(values := s.values[s.active := Some(value)]), pool.written);
      WriteShows(pool.table, slot, value);
      pool.Keep(Put(pool.table, slot, s.(values := s.values[s.active := Some(value)])));
      pool.written := pool.written + {Mark(slot, generation, value)};
      return Ok(());
    }

    /** An owned successor value for a later commit; the pool is not consulted. */
    function StagedWrite(value: Tensor): (r: Result<PendingWrite, HostError>)
      ensures r.Ok? <==> value.shape == descriptor.shape && value.dtype == descriptor.dtype
      ensures r.Ok? ==> r.value == PendingWrite(pool, slot, generation, descriptor, value)
    {
      if value.shape != descriptor.shape || value.dtype != descriptor.dtype then Err(IncompatibleDescriptor)
      else Ok(PendingWrite(pool, slot, generation, descriptor, value))
    }

    /**
     * A staged value can be committed on its own exactly while its lease lives and its slot is neither viewed nor open.
     */
    lemma StagedCommits(value: Tensor)
      requires pool.Valid() && this in pool.leases && StagedWrite(value).Ok?
      ensures slot in pool.table.at
      ensures var s := pool.table.at[slot];
              FirstCommitRefusal(pool.table, pool, [StagedWrite(value).value], 0) ==
              if released then Some(StaleGeneration(slot, generation))
              else if s.views != 0 || s.window then Some(OutstandingBorrow(slot))
              else None
    {
      hide SlotsOk, ViewsOk, WindowsOk, IssuedOk, Sourced, Dated;
      LeaseFacts(pool.table, slot, generation, descriptor, released);
      var ws := [StagedWrite(value).value];
      assert AsRequests(ws)[..0] == [];
      assert CommitRefused(pool.table, pool, ws, 0) ==
             if released then Some(StaleGeneration(slot, generation))
             else if pool.table.at[slot].views != 0 || pool.table.at[slot].window then Some(OutstandingBorrow(slot))
             else None;
    }

    /** One more view of this generation. */
    method View() returns (r: Result<ReadView, HostError>)
      requires pool.Valid() && this in pool.leases
      modifies pool`table, pool`views
      ensures pool.Valid() && pool.StrandedStay()
      ensures slot in old(pool.table.at)
      ensures r == if released then Err(StaleGeneration(slot, generation))
                   else if old(pool.table).at[slot].views == LIMIT then Err(Overflow)
                   else Ok(ReadView(slot, generation, descriptor))
      ensures if r.Ok? then
                pool.views == old(pool.views) + multiset{r.value} &&
                pool.table == Recounted(old(pool.table), slot, old(pool.table).at[slot].views + 1)
              else pool.views == old(pool.views) && pool.table == old(pool.table)
    {
      hide SlotsOk, ViewsOk, WindowsOk, IssuedOk, Sourced, Holds, Recounted;
      LeaseFacts(pool.table, slot, generation, descriptor, released);
      var live := pool.LiveSlot(slot, generation);
      if live.Err? {
        return Err(live.error);
      }
      var s := live.value;
      SlotFacts(pool.table, slot);
      if s.views == LIMIT {
        return Err(Overflow);
      }
      pool.AddView(slot);
      return Ok(ReadView(slot, generation, descriptor));
    }

    /** The sole mutable window of a slot nobody views. */
    method MutableWindow(offset: nat, bytes: nat) returns (r: Result<Window, HostError>)
      requires pool.Valid() && this in pool.leases
      modifies pool`table, pool`windows, pool`issued
      ensures pool.Valid() && pool.StrandedStay()
      ensures pool.issued == old(pool.issued) + if r.Ok? then {r.value} else {}
      ensures slot in old(pool.table.at)
      ensures var s := old(pool.table).at[slot];
              r == if RangeRefusal(descriptor, offset, bytes).Some?
                then Err(RangeRefusal(descriptor, offset, bytes).value)
                   else if released then Err(StaleGeneration(slot, generation))
                   else if s.views != 0 || s.window then Err(OutstandingBorrow(slot))
                   else Ok(Window(slot, generation, offset, offset + bytes))
      ensures if r.Ok? then
                pool.windows == old(pool.windows) + multiset{r.value} &&
                pool.table == Reflagged(old(pool.table), slot, true)
              else pool.windows == old(pool.windows) && pool.table == old(pool.table)
    {
      hide SlotsOk, ViewsOk, WindowsOk, IssuedOk, Sourced, Holds, Put, Dated;
      LeaseFacts(pool.table, slot, generation, descriptor, released);
      var range := RangeRefusal(descriptor, offset, bytes);
      if range.Some? {
        return Err(range.value);
      }
      var live := pool.LiveSlot(slot, generation);
      if live.Err? {
        return Err(live.error);
      }
      if live.value.views != 0 || live.value.window {
        return Err(OutstandingBorrow(slot));
      }
      SlotFacts(pool.table, slot);
      var w := Window(slot, generation, offset, offset + bytes);
      pool.OpenWindow(w);
      return Ok(w);
    }

    /** Ends the generation unless a view of it is out; an open mutable window does not stop it. */
    method Release() returns (r: Result<(), HostError>)
      requires pool.Valid() && this in pool.leases
      modifies pool`table, this
      ensures pool.Valid() && pool.StrandedStay()
      ensures slot in old(pool.table.at)
      ensures var s := old(pool.table).at[slot];
              r == if old(released) then Err(DoubleRelease(slot))
                   else if s.views != 0 then Err(OutstandingBorrow(slot))
                   else Ok(())
      ensures if r.Ok? then
                released &&
                pool.table == Vacated(old(pool.table), slot)
              else released == old(released) && pool.table == old(pool.table)
    {
      hide SlotsOk, ViewsOk, WindowsOk, IssuedOk, Sourced, Holds, Put, Dated;
      LeaseFacts(pool.table, slot, generation, descriptor, released);
      if released {
        return Err(DoubleRelease(slot));
      }
      // An unreleased lease always finds its slot live.
      var live := pool.LiveSlot(slot, generation);
      var s := live.value;
      if s.views != 0 {
        return Err(OutstandingBorrow(slot));
      }
      SlotReleased(pool.table, slot, pool.views, pool.windows, pool.issued, pool.written);
      PutDated(pool.table, slot, s.(leased := false, values := [None, None]), pool.written);
      ghost var before := pool.table;
      pool.table := Put(pool.table, slot, s.(leased := false, values := [None, None]));
      released := true;
      assert forall l :: l in pool.leases ==>
               Holds(before, l.slot, l.generation, l.descriptor, l == this || l.released) || l == this;
      return Ok(());
    }

    /** Dropping a lease tries to release it and ignores a refusal: a viewed slot then stays leased with no owner. */
    method Drop()
      requires pool.Valid() && this in pool.leases
      modifies pool`table, pool`leases, this
      ensures pool.Valid() && pool.StrandedStay() && pool.leases == old(pool.leases) - {this}
      ensures slot in old(pool.table.at)
      ensures pool.table ==
              if old(released) || old(pool.table).at[slot].views != 0 then old(pool.table)
              else Vacated(old(pool.table), slot)
    {
      hide SlotsOk, ViewsOk, WindowsOk, IssuedOk, Sourced, Vacated, Holds;
      var _ := Release();
      pool.leases := pool.leases - {this};
    }
  }

  lemma SlotFacts(t: Table, k: int)
    requires SlotsOk(t) && k in t.at
    ensures SlotOk(t.at[k])
  {
  }

  lemma ViewAdded(t: Table, k: int, views: multiset<ReadView>)
    requires ViewsOk(t, views) && k in t.at
    ensures var v := ViewOf(k, t.at[k]); views + multiset{v} == views[v := t.at[k].views + 1]
  {
  }

  lemma LeaseFacts(t: Table, k: int, generation: nat, d: Descriptor, released: bool)
    requires Holds(t, k, generation, d, released)
    ensures k in t.at
    ensures if released then !(t.at[k].leased && t.at[k].generation == generation)
            else t.at[k].leased && t.at[k].generation == generation && t.at[k].descriptor == Some(d)
  {
  }

  class HostSlotPool {
    var table: Table
    var nextSentinel: nat
    ghost var leases: set<HostBufferLease>
    ghost var views: multiset<ReadView>
    ghost var windows: multiset<Window>
    ghost var issued: set<Window>
    ghost var written: set<Mark>

    /** The bookkeeping half of the invariant: slots, views, windows and the provenance of stored values. */
    ghost predicate Books()
      reads this
    {
      SlotsOk(table) && ViewsOk(table, views) && WindowsOk(table, windows) && IssuedOk(table, issued) &&
      Sourced(table, written) && Dated(table, written)
    }

    /** What holds after every step: the books, and at most one unreleased lease per slot, which owns it. */
    ghost predicate Valid()
      reads this, leases
    {
      Books() &&
      (forall l :: l in leases ==> l.pool == this && Holds(table, l.slot, l.generation, l.descriptor, l.released)) &&
      forall l, m :: l in leases && m in leases && !l.released && !m.released && l.slot == m.slot ==> l == m
    }

    /** Slot `k` is leased, and nobody who could release it is left. */
    ghost predicate Stranded(k: int)
      reads this, leases
    {
      k in table.at && table.at[k].leased && forall l :: l in leases && l.slot == k ==> l.released
    }

    /** A step leaves every stranded slot stranded, at its generation. */
    twostate predicate StrandedStay()
      reads this, leases
    {
      forall k :: old(Stranded(k)) ==> Stranded(k) && table.at[k].generation == old(table.at[k].generation)
    }

    /** A stranded slot is refused to every later lease; with `StrandedStay` on every step, for good. */
    lemma StrandedRefused(k: int, sentinel: bool, d: Descriptor)
      requires Valid() && Stranded(k)
      ensures LeaseRefusal(table, k, sentinel, d) == Some(OutstandingBorrow(k))
    {
    }

    constructor ()
      ensures Valid() && table == RawTable([], map[]) && nextSentinel == 0
      ensures leases == {} && views == multiset{} && windows == multiset{} && issued == {} && written == {}
    {
      table := RawTable([], map[]);
      nextSentinel := 0;
      leases, views, windows, issued, written := {}, multiset{}, multiset{}, {}, {};
    }

    /** The slot of a current generation, or why there is none. */
    method LiveSlot(k: int, generation: nat) returns (r: Result<Slot, HostError>)
      ensures r == if k !in table.at then Err(MissingSlot(k))
                   else if table.at[k].generation != generation || !table.at[k].leased
                     then Err(StaleGeneration(k, generation))
                   else Ok(table.at[k])
    {
      if k !in table.at {
        return Err(MissingSlot(k));
      }
      var s := table.at[k];
      if s.generation != generation || !s.leased {
        return Err(StaleGeneration(k, generation));
      }
      return Ok(s);
    }

    method Keep(t: Table)
      modifies this`table
      ensures table == t
    {
      table := t;
    }

    /** Counts one more view of a leased slot. */
    method AddView(k: int)
      requires Valid() && k in table.at && table.at[k].leased && table.at[k].views < LIMIT
      modifies this`table, this`views
      ensures Valid() && StrandedStay() && views == old(views) + multiset{ViewOf(k, old(table).at[k])}
      ensures table == Recounted(old(table), k, old(table).at[k].views + 1)
    {
      hide SlotsOk, ViewsOk, WindowsOk, IssuedOk, Sourced, Put, Holds;
      var s := table.at[k];
      ViewAdded(table, k, views);
      ViewsMoved(table, k, s.views + 1, views, views + multiset{ViewOf(k, s)}, windows, issued, written);
      table := Put(table, k, s.(views := s.views + 1));
      views := views + multiset{ViewOf(k, s)};
    }

    /** Raises the window flag of a slot for a checked range. */
    method OpenWindow(w: Window)
      requires Valid() && w.slot in table.at && table.at[w.slot].leased && !table.at[w.slot].window
      requires w.generation == table.at[w.slot].generation && w.end <= table.at[w.slot].capacity
      modifies this`table, this`windows, this`issued
      ensures Valid() && windows == old(windows) + multiset{w} && issued == old(issued) + {w}
      ensures table == Reflagged(old(table), w.slot, true)
    {
      hide SlotsOk, ViewsOk, WindowsOk, Sourced, Put, Holds;
      PutWindowOpened(table, w.slot, w, windows);
      WindowMoved(table, w.slot, true, windows + multiset{w}, views, windows, issued, written);
      ghost var before := table;
      table := Put(table, w.slot, table.at[w.slot].(window := true));
      windows := windows + multiset{w};
      issued := issued + {w};
    }

    /** A new generation of a slot; without a number the next sentinel slot is used. */
    method Lease(physical: Option<int>, d: Descriptor) returns (r: Result<HostBufferLease, HostError>)
      requires Valid()
      modifies this`table, this`leases, this`nextSentinel
      ensures Valid() && StrandedStay() && nextSentinel == old(nextSentinel) + if physical.None? then 1 else 0
      ensures var k := if physical.Some? then physical.value else LIMIT - old(nextSentinel);
              var refusal := LeaseRefusal(old(table), k, physical.None?, d);
              if refusal.Some? then r == Err(refusal.value) && table == old(table) && leases == old(leases)
              else r.Ok? && fresh(r.value) && leases == old(leases) + {r.value} && !r.value.released &&
                   r.value.slot == k && r.value.descriptor == d && table == Leased(old(table), k, d) &&
                   k in table.at && r.value.generation == table.at[k].generation &&
                   forall m :: m in written && m.slot == k ==> m.generation < r.value.generation
      ensures var k := if physical.Some? then physical.value else 0xFFFF_FFFF_FFFF_FFFF - old(nextSentinel);
              (r.Ok? <==> Leasable(old(table), k, physical.None?, d)) && (r.Ok? ==> Began(old(table), table, k, d))
    {
      hide SlotsOk, ViewsOk, WindowsOk, IssuedOk, Sourced, Dated, Holds, LeaseRefusal, Leased, Leasable, Began;
      var k: int;
      if physical.Some? {
        k := physical.value;
      } else {
        k := LIMIT - nextSentinel;
        nextSentinel := nextSentinel + 1;
      }
      r := LeaseSlot(k, physical.None?, d);
    }

    /** A new generation of slot `k`, unless the slot may not be leased. */
    method LeaseSlot(k: int, sentinel: bool, d: Descriptor) returns (r: Result<HostBufferLease, HostError>)
      requires Valid()
      modifies this`table, this`leases
      ensures Valid() && StrandedStay()
      ensures var refusal := LeaseRefusal(old(table), k, sentinel, d);
              if refusal.Some? then r == Err(refusal.value) && table == old(table) && leases == old(leases)
              else r.Ok? && fresh(r.value) && leases == old(leases) + {r.value} && !r.value.released &&
                   r.value.slot == k && r.value.descriptor == d && table == Leased(old(table), k, d) &&
                   k in table.at && r.value.generation == table.at[k].generation &&
                   forall m :: m in written && m.slot == k ==> m.generation < r.value.generation
      ensures (r.Ok? <==> Leasable(old(table), k, sentinel, d)) && (r.Ok? ==> Began(old(table), table, k, d))
    {
      hide SlotsOk, ViewsOk, WindowsOk, IssuedOk, Sourced, Holds, LeaseRefusal, Leased, Leasable, Began;
      LeaseMeans(table, k, sentinel, d);
      var refusal := CheckLease(k, sentinel, d);
      if refusal.Some? {
        return Err(refusal.value);
      }
      var lease := Install(k, d);
      return Ok(lease);
    }

    method CheckLease(k: int, sentinel: bool, d: Descriptor) returns (refusal: Option<HostError>)
      requires Valid()
      ensures refusal == LeaseRefusal(table, k, sentinel, d)
      ensures refusal.None? && k in table.at ==>
                var s := table.at[k];
                !s.leased && !s.window && s.generation < LIMIT && s.capacity == d.bytes
    {
      hide ViewsOk, WindowsOk, IssuedOk, Sourced, Holds;
      var s := if k in table.at then table.at[k] else Blank(d.bytes);
      if s.leased || s.views != 0 || s.window {
        return Some(OutstandingBorrow(k));
      }
      if !sentinel && s.capacity != d.bytes {
        return Some(LogicalBounds(d.bytes, s.capacity));
      }
      if s.descriptor.Some? {
        var previous := s.descriptor.value;
        if previous.dtype != d.dtype || previous.shape != d.shape || previous.alignment != d.alignment ||
           previous.lanes != d.lanes || previous.bytes != d.bytes {
          return Some(IncompatibleDescriptor);
        }
      }
      if s.generation == LIMIT {
        return Some(Overflow);
      }
      if k in table.at {
        SlotFacts(table, k);
      }
      return None;
    }

    method Install(k: int, d: Descriptor) returns (lease: HostBufferLease)
      requires Valid()
      requires k in table.at ==>
                 var s := table.at[k];
                 !s.leased && !s.window && s.generation < LIMIT && s.capacity == d.bytes
      modifies this`table, this`leases
      ensures Valid() && StrandedStay() && fresh(lease) && leases == old(leases) + {lease} && !lease.released
      ensures lease.slot == k && lease.descriptor == d && table == Leased(old(table), k, d)
      ensures k in table.at && lease.generation == table.at[k].generation
      ensures forall m :: m in written && m.slot == k ==> m.generation < lease.generation
    {
      hide SlotsOk, ViewsOk, WindowsOk, IssuedOk, Sourced, Holds, Put;
      SlotLeased(table, k, d, views, windows, issued, written);
      OwnersSuperseded(k);
      var generation := (if k in table.at then table.at[k].generation else 0) + 1;
      table := Leased(table, k, d);
      lease := new HostBufferLease(this, k, generation, d);
      leases := leases + {lease};
    }

    /** What holds in every reachable pool, handle by handle and slot by slot. */
    lemma EveryHandleAccounted()
      requires Valid()
      ensures forall l :: l in leases && !l.released ==>
                l.slot in table.at && table.at[l.slot].leased && table.at[l.slot].generation == l.generation &&
                table.at[l.slot].descriptor == Some(l.descriptor) && table.at[l.slot].capacity == l.descriptor.bytes
      ensures forall l, m :: l in leases && m in leases && !l.released && !m.released && l != m ==> l.slot != m.slot
      ensures forall v :: v in views ==>
                v.slot in table.at && table.at[v.slot].leased && v.generation == table.at[v.slot].generation &&
                table.at[v.slot].descriptor == Some(v.descriptor) && views[v] == table.at[v.slot].views
      ensures forall v, w :: v in views && w in views && v.slot == w.slot ==> v == w
      ensures forall k :: k in table.at && table.at[k].views > 0 ==> exists v :: v in views && v.slot == k
      ensures forall k :: k in table.at ==> (table.at[k].window <==> exists w :: w in windows && w.slot == k)
      ensures forall v, w :: v in windows && w in windows && v.slot == w.slot ==> v == w && windows[v] == 1
      ensures forall w :: w in issued ==> w.slot in table.at && w.end <= table.at[w.slot].capacity
      ensures forall k :: k in table.at && !table.at[k].leased ==>
                table.at[k].views == 0 && table.at[k].values == [None, None]
      ensures forall m :: m in written ==> m.slot in table.at && m.generation <= table.at[m.slot].generation
    {
      forall k | k in table.at
        ensures SlotOk(table.at[k]) && (table.at[k].window <==> Opened(windows, k))
        ensures table.at[k].views > 0 ==> ViewOf(k, table.at[k]) in views && ViewOf(k, table.at[k]).slot == k
      {
        if Opened(windows, k) {
          var w :| w in windows && w.slot == k;
          assert Flagged(table, w);
        }
      }
    }

    /** No handle still owns a slot that nobody leases. */
    lemma OwnersSuperseded(k: int)
      requires Valid() && (k in table.at ==> !table.at[k].leased)
      ensures forall l :: l in leases && l.slot == k ==> l.released
    {
    }

    // Views and windows

    /** A checked read-only range; it takes no lock. */
    method ByteWindow(v: ReadView, offset: nat, bytes: nat) returns (r: Result<Window, HostError>)
      requires Valid() && v in views
      modifies this`issued
      ensures Valid()
      ensures r == if RangeRefusal(v.descriptor, offset, bytes).Some?
                then Err(RangeRefusal(v.descriptor, offset, bytes).value)
                   else Ok(Window(v.slot, v.generation, offset, offset + bytes))
      ensures issued == old(issued) + if r.Ok? then {r.value} else {}
    {
      hide SlotsOk, WindowsOk, Sourced, Holds;
      var range := RangeRefusal(v.descriptor, offset, bytes);
      if range.Some? {
        return Err(range.value);
      }
      ViewFacts(table, v, views);
      SlotFacts(table, v.slot);
      var w := Window(v.slot, v.generation, offset, offset + bytes);
      issued := issued + {w};
      return Ok(w);
    }

    /** The sole mutable window through the sole view of a slot. A live view is never stale. */
    method ViewWindow(v: ReadView, offset: nat, bytes: nat) returns (r: Result<Window, HostError>)
      requires Valid() && v in views
      modifies this`table, this`windows, this`issued
      ensures Valid() && StrandedStay() && issued == old(issued) + if r.Ok? then {r.value} else {}
      ensures v.slot in old(table.at)
      ensures var s := old(table).at[v.slot];
              r == if RangeRefusal(v.descriptor, offset, bytes).Some?
                then Err(RangeRefusal(v.descriptor, offset, bytes).value)
                   else if s.views != 1 || s.window then Err(OutstandingBorrow(v.slot))
                   else Ok(Window(v.slot, v.generation, offset, offset + bytes))
      ensures if r.Ok? then windows == old(windows) + multiset{r.value} && table == Reflagged(old(table), v.slot, true)
              else windows == old(windows) && table == old(table)
    {
      hide SlotsOk, ViewsOk, WindowsOk, IssuedOk, Sourced, Holds;
      ViewFacts(table, v, views);
      SlotFacts(table, v.slot);
      var range := RangeRefusal(v.descriptor, offset, bytes);
      if range.Some? {
        return Err(range.value);
      }
      var live := LiveSlot(v.slot, v.generation);
      if live.value.views != 1 || live.value.window {
        return Err(OutstandingBorrow(v.slot));
      }
      var w := Window(v.slot, v.generation, offset, offset + bytes);
      OpenWindow(w);
      return Ok(w);
    }

    /** The active tensor seen through a live view: written under the view's own generation, or its zero. */
    method ViewTensor(v: ReadView) returns (r: Result<Tensor, HostError>)
      requires Valid() && v in views
      ensures v.slot in table.at && table.at[v.slot].leased && table.at[v.slot].generation == v.generation
      ensures r == match ActiveOf(table.at[v.slot]) case Some(t) => Ok(t)
                case None => Err(MissingValue(v.descriptor.bufferId))
      ensures r.Ok? ==> Mark(v.slot, v.generation, r.value) in written || ZeroTensor(v.descriptor) == Some(r.value)
    {
      hide SlotsOk, ViewsOk, WindowsOk, IssuedOk, Holds, ZeroTensor;
      ViewFacts(table, v, views);
      SlotFacts(table, v.slot);
      var live := LiveSlot(v.slot, v.generation);
      var s := live.value;
      match s.values[s.active]
      case Some(t) =>
        assert SourcedValue(v.slot, table.at[v.slot], written, table.at[v.slot].values[s.active].value);
        return Ok(t);
      case None => return Err(MissingValue(v.descriptor.bufferId));
    }

    /** A window is refused only once its generation is over, never for its bounds. */
    method Validate(w: Window) returns (r: Result<(), HostError>)
      requires Valid() && w in issued
      ensures w.slot in table.at
      ensures r == if table.at[w.slot].generation == w.generation && table.at[w.slot].leased then Ok(())
                   else Err(StaleGeneration(w.slot, w.generation))
    {
      hide SlotsOk, ViewsOk, WindowsOk, Sourced, Holds;
      var live := LiveSlot(w.slot, w.generation);
      if live.Err? {
        return Err(live.error);
      }
      if w.end > live.value.capacity {
        assert false;
      }
      return Ok(());
    }

    method DropView(v: ReadView)
      requires Valid() && v in views
      modifies this`table, this`views
      ensures Valid() && StrandedStay() && views == old(views) - multiset{v}
      ensures v.slot in old(table.at) && 0 < old(table).at[v.slot].views
      ensures table == Recounted(old(table), v.slot, old(table).at[v.slot].views - 1)
    {
      hide SlotsOk, ViewsOk, WindowsOk, IssuedOk, Sourced, Holds, Put;
      ViewFacts(table, v, views);
      SlotFacts(table, v.slot);
      ghost var before := table;
      var s := table.at[v.slot];
      if s.generation == v.generation && s.views != 0 {
        ViewsMoved(table, v.slot, s.views - 1, views, views - multiset{v}, windows, issued, written);
        table := Recounted(table, v.slot, s.views - 1);
      }
      views := views - multiset{v};
    }

    /** Dropping the live mutable window reopens the slot, leased or not. */
    method DropWindow(w: Window)
      requires Valid() && w in windows
      modifies this`table, this`windows
      ensures Valid() && StrandedStay() && windows == old(windows) - multiset{w}
      ensures w.slot in old(table.at) && table == Reflagged(old(table), w.slot, false)
    {
      hide SlotsOk, ViewsOk, WindowsOk, IssuedOk, Sourced, Holds, Put;
      PutWindowClosed(table, w, windows);
      var s := table.at[w.slot];
      if s.generation == w.generation {
        WindowMoved(table, w.slot, false, windows - multiset{w}, views, windows, issued, written);
        table := Reflagged(table, w.slot, false);
      }
      windows := windows - multiset{w};
    }

    // The bank transaction

    /** Checks one request against its slot and readies the inactive bank. */
    method PrepareSlot(s: Slot, request: Request) returns (r: Result<Slot, HostError>)
      ensures r == match Unfit(s, request) case Some(e) => Err(e) case None => Ok(Ready(s, request))
      ensures r.Ok? <==>
              Entitled(s, request) && (request.retain || Shapes.CheckedNumel(request.descriptor.shape).Some?)
      ensures r.Ok? && !request.retain ==>
                InactiveOf(r.value).Some? && Offered(s, request.descriptor, InactiveOf(r.value).value)
    {
      hide Offered;
      UnfitIs(s, request);
      if Unfit(s, request).None? {
        ReadyOffers(s, request);
      }
      if s.generation != request.generation || !s.leased {
        return Err(StaleGeneration(request.slot, request.generation));
      }
      if s.views != 0 || s.window {
        return Err(OutstandingBorrow(request.slot));
      }
      if s.descriptor != Option.Some(request.descriptor) {
        return Err(IncompatibleDescriptor);
      }
      if NeedsZero(s, request) {
        var zero := ZeroTensor(request.descriptor);
        if zero.None? {
          return Err(IncompatibleDescriptor);
        }
        return Ok(WithInactive(s, zero.value));
      }
      return Ok(s);
    }

    /** Admits a full frontier by walking requests and slots side by side. */
    method AdmitFrontier(rs: seq<Request>) returns (refusal: Option<HostError>)
      requires FullFrontier(table, rs)
      modifies this`table
      ensures AdmitOutcome(old(table), this, rs, table, refusal)
    {
      hide AdmittedTo, AdmitOutcome, Unfit, Ready, Put, Ordinal, Refused, FullFrontier;
      ghost var t := table;
      AdmitStart(t, this, rs);
      for i := 0 to |rs|
        invariant AdmittedTo(t, this, rs, i, table)
      {
        FrontierOrdinal(t, rs, i);
        AdmitStep(t, this, rs, i, table);
        if rs[i].owner != this {
          return Option.Some(OwnerMismatch);
        }
        var prepared := PrepareSlot(table.at[rs[i].slot], rs[i]);
        if prepared.Err? {
          return Option.Some(prepared.error);
        }
        table := Put(table, rs[i].slot, prepared.value);
      }
      AdmitEnd(t, this, rs, table);
      return None;
    }

    /** Admits any requests, remembering by slot which request came first. */
    method AdmitKeyed(rs: seq<Request>) returns (refusal: Option<HostError>, requested: map<int, nat>)
      modifies this`table
      ensures AdmitOutcome(old(table), this, rs, table, refusal)
      ensures refusal.None? ==> KeyedBy(rs, |rs|, requested)
    {
      hide AdmittedTo, AdmitOutcome, Unfit, Ready, Put, Ordinal, Refused;
      ghost var t := table;
      requested := map[];
      AdmitStart(t, this, rs);
      for i := 0 to |rs|
        invariant AdmittedTo(t, this, rs, i, table)
        invariant KeyedBy(rs, i, requested)
      {
        AdmitStep(t, this, rs, i, table);
        KeyedNext(rs, i, requested);
        if rs[i].owner != this || rs[i].slot in requested {
          return Option.Some(OwnerMismatch), requested;
        }
        requested := requested[rs[i].slot := i];
        if rs[i].slot !in table.at {
          return Option.Some(MissingSlot(rs[i].slot)), requested;
        }
        var prepared := PrepareSlot(table.at[rs[i].slot], rs[i]);
        if prepared.Err? {
          return Option.Some(prepared.error), requested;
        }
        table := Put(table, rs[i].slot, prepared.value);
      }
      AdmitEnd(t, this, rs, table);
      refusal := None;
    }

    /** Collects a full frontier's banks in slot order, which is request order. */
    method CollectFrontier(rs: seq<Request>) returns (r: Result<seq<Bank>, HostError>)
      requires FullFrontier(table, rs) && Provided(table, rs)
      ensures CollectOutcome(table, rs, r)
    {
      hide Ordinal, Provided, Staffed, BankAt, IsBank, FullFrontier, FirstMissing;
      var banks: seq<Bank> := [];
      for j := 0 to |table.keys|
        invariant |banks| == j && FirstMissing(table, rs, 0) == FirstMissing(table, rs, j)
        invariant forall i :: 0 <= i < j ==> IsBank(table, rs, banks[i]) && banks[i].ordinal == i
      {
        FrontierStep(table, rs, j);
        var ordinal := |banks|;
        var s := table.at[table.keys[j]];
        if ActiveOf(s).None? {
          return Err(MissingValue(rs[ordinal].descriptor.bufferId));
        }
        banks := banks + [Bank(ordinal, rs[ordinal].descriptor.bufferId, ActiveOf(s).value,
                               if rs[ordinal].retain then Option.None else InactiveOf(s))];
      }
      FrontierEnd(table, rs);
      ProvidedStaffed(table, rs);
      CollectedFrontier(table, rs, banks);
      return Ok(banks);
    }

    /** Collects the banks of requested slots in slot order, then sorts them back into request order. */
    method CollectKeyed(rs: seq<Request>, requested: map<int, nat>) returns (r: Result<seq<Bank>, HostError>)
      requires Provided(table, rs) && KeyedBy(rs, |rs|, requested)
      ensures CollectOutcome(table, rs, r)
    {
      hide Ordinal, Provided, Staffed, BankAt, Collected, SortedBanks;
      assert rs[..|rs|] == rs;
      var banks: seq<Bank> := [];
      CollectedNone(table, rs);
      for j := 0 to |table.keys|
        invariant FirstMissing(table, rs, 0) == FirstMissing(table, rs, j)
        invariant Collected(table, rs, j, banks)
      {
        var k := table.keys[j];
        if k !in requested {
          CollectedSkip(table, rs, j, banks);
          continue;
        }
        var ordinal := requested[k];
        var s := table.at[k];
        if ActiveOf(s).None? {
          return Err(MissingValue(rs[ordinal].descriptor.bufferId));
        }
        CollectedNext(table, rs, j, banks, ordinal);
        BankIs(table, rs, ordinal);
        banks := banks + [Bank(ordinal, rs[ordinal].descriptor.bufferId, ActiveOf(s).value,
                               if rs[ordinal].retain then Option.None else InactiveOf(s))];
      }
      ProvidedStaffed(table, rs);
      CollectedSorted(table, rs, banks);
      return Ok(SortedBanks(banks));
    }

    /** Leaves the callback's tensors in the inactive banks. */
    method Scribble(rs: seq<Request>, values: seq<Tensor>)
      requires Distinct(table, rs) && |values| == |rs|
      modifies this`table
      ensures table == Scribbled(old(table), rs, values, |rs|)
    {
      hide Ordinal, Scribbled, Put, WithInactive, Distinct;
      ghost var t := table;
      NothingYet(t, rs, values);
      for i := 0 to |rs|
        invariant table == Scribbled(t, rs, values, i)
      {
        DistinctAt(t, rs, i);
        ScribbledNext(t, rs, values, i);
        ScribbledKeys(t, rs, values, i);
        if !rs[i].retain {
          table := Put(table, rs[i].slot, WithInactive(table.at[rs[i].slot], values[i]));
        } else {
          PutSame(table, rs[i].slot);
        }
      }
    }

    /** Publishes the successors, walking requests and slots side by side or looking slots up. */
    method Flip(rs: seq<Request>, frontier: bool)
      requires Distinct(table, rs) && (frontier ==> FullFrontier(table, rs))
      modifies this`table
      ensures table == Exchanged(old(table), rs, |rs|)
    {
      hide Ordinal, Exchanged, Put, Flipped, Distinct;
      ghost var t := table;
      NothingYet(t, rs, []);
      for i := 0 to |rs|
        invariant table == Exchanged(t, rs, i)
      {
        DistinctAt(t, rs, i);
        ExchangedNext(t, rs, i);
        ExchangedKeys(t, rs, i);
        if !rs[i].retain {
          var k := if frontier then table.keys[i] else rs[i].slot;
          table := Put(table, k, Flipped(table.at[k]));
        } else {
          PutSame(table, rs[i].slot);
        }
      }
    }

    /** Everything before the callback, along either path. */
    method AdmitAll(rs: seq<Request>, frontier: bool) returns (collected: Result<seq<Bank>, HostError>)
      requires frontier ==> FullFrontier(table, rs)
      modifies this`table
      ensures Admit(old(table), this, rs) ==
              match collected case Ok(banks) => Open(table, banks) case Err(e) => Rejected(e, table)
      ensures collected.Ok? ==>
                |collected.value| == |rs| && Distinct(table, rs) && (frontier ==> FullFrontier(table, rs))
    {
      hide FullFrontier, Admit, AdmitOutcome, CollectOutcome, KeyedBy, Provided, Distinct;
      ghost var t := table;
      var refusal: Option<HostError>;
      var requested: map<int, nat> := map[];
      if frontier {
        refusal := AdmitFrontier(rs);
      } else {
        refusal, requested := AdmitKeyed(rs);
      }
      if refusal.Some? {
        AdmitRefused(t, this, rs, table, refusal.value);
        return Err(refusal.value);
      }
      AdmitPassed(t, this, rs, table);
      if frontier {
        collected := CollectFrontier(rs);
      } else {
        collected := CollectKeyed(rs, requested);
      }
      AdmitCollected(t, this, rs, table, collected);
    }

    /** Everything after the callback, along either path. */
    method Finish<T, E>(rs: seq<Request>, frontier: bool, banks: seq<Bank>, out: Staged<T, E>)
      returns (r: Result<T, TransactError<E>>)
      requires |banks| == |rs| && Distinct(table, rs) && (frontier ==> FullFrontier(table, rs))
      modifies this`table
      ensures Transaction(r, table) == Conclude(old(table), rs, banks, out)
    {
      hide FullFrontier, Conclude, Distinct, Agreeing, Successors, Scribbled, Exchanged;
      var values := Successors(banks, out.written);
      ghost var prepared := table;
      Scribble(rs, values);
      ConcludeSteps(prepared, table, rs, banks, out);
      match out.result
      case Err(e) =>
        return Err(Stage(e));
      case Ok(value) =>
        if !Agreeing(rs, values) {
          return Err(Host(IncompatibleDescriptor));
        }
        Flip(rs, frontier);
        return Ok(value);
    }

    /**
     * A bank transaction. The full-frontier path and the keyed path give the same result, the same banks to
     * the callback and the same table: both are the one function of the table, the requests and the callback.
     */
    method Transact<T, E>(rs: seq<Request>, preferFrontier: bool, stage: seq<Bank> -> Staged<T, E>)
      returns (r: Result<T, TransactError<E>>)
      requires Valid()
      modifies this`table, this`written
      ensures Valid() && StrandedStay()
      ensures r == HostSlots.Transact(old(table), this, rs, stage).result
      ensures table == HostSlots.Transact(old(table), this, rs, stage).table
      ensures written == old(written) + Marks(old(table), this, rs, stage)
      ensures r.Ok? || r.error.Stage? ==>
                (forall i :: 0 <= i < |rs| ==> Granted(old(table), this, rs[i]) && HasActive(old(table), rs[i])) &&
                  Apart(rs)
      ensures ViewedStay(old(table), table) && HandlesUndisturbed()
    {
      hide SlotsOk, ViewsOk, WindowsOk, IssuedOk, Sourced, Holds, Marks, Dated, HostSlots.Transact, Granted, HasActive,
        Apart, ViewedStay, Undisturbed;
      TransactMeans(table, this, rs, stage);
      SparesHandles(HostSlots.Transact(table, this, rs, stage).table);
      TransactKeeps(rs, stage);
      written := written + Marks(table, this, rs, stage);
      r := RunTransaction(rs, preferFrontier, stage);
    }

    /** Every live view and every open window still stands on the slot it stood on, exactly as it was. */
    twostate predicate HandlesUndisturbed()
      reads this
    {
      views == old(views) && windows == old(windows) && Undisturbed(old(table), table, views, windows)
    }

    /** A step that spares viewed and open slots leaves the slots of all live handles alone. */
    lemma SparesHandles(u: Table)
      requires Books() && ViewedStay(table, u)
      ensures Undisturbed(table, u, views, windows)
    {
      forall v | v in views
        ensures v.slot in table.at && table.at[v.slot].views != 0
      {
        ViewFacts(table, v, views);
      }
      forall w | w in windows
        ensures w.slot in table.at && table.at[w.slot].window
      {
        assert Flagged(table, w);
      }
    }

    /** What a transaction leaves is in order. */
    lemma TransactKeeps<T, E>(rs: seq<Request>, stage: seq<Bank> -> Staged<T, E>)
      requires Books()
      ensures var u := HostSlots.Transact(table, this, rs, stage).table;
              var marked := written + Marks(table, this, rs, stage);
              SlotsOk(u) && ViewsOk(u, views) && WindowsOk(u, windows) && IssuedOk(u, issued) && Sourced(u, marked) &&
              Dated(u, marked) && HoldsKept(table, u) && LeasedKept(table, u)
    {
      hide SlotsOk, ViewsOk, WindowsOk, IssuedOk, Sourced, Evolved, Marks, Dated, HoldsKept, LeasedKept;
      hide HostSlots.Transact;
      var marks := Marks(table, this, rs, stage);
      var u, marked := HostSlots.Transact(table, this, rs, stage).table, written + marks;
      TransactEvolved(table, this, rs, stage, written);
      EvolvedBooks(table, u, marked, views, windows, issued);
      EvolvedLeased(table, u, marked);
      MarksDated(table, this, rs, stage);
      DatedAfter(table, u, written, marks, marked);
    }

    /** The transaction on the table, along whichever path applies. */
    method RunTransaction<T, E>(rs: seq<Request>, preferFrontier: bool, stage: seq<Bank> -> Staged<T, E>)
      returns (r: Result<T, TransactError<E>>)
      modifies this`table
      ensures r == HostSlots.Transact(old(table), this, rs, stage).result
      ensures table == HostSlots.Transact(old(table), this, rs, stage).table
    {
      hide FullFrontier, Admit, Conclude, Distinct;
      var frontier := preferFrontier && FullFrontier(table, rs);
      var collected := AdmitAll(rs, frontier);
      if collected.Err? {
        return Err(Host(collected.error));
      }
      r := Finish(rs, frontier, collected.value, stage(collected.value));
    }

    // Batches

    /** Publishes a batch of owned values, or none of them. */
    method Commit(ws: seq<PendingWrite>) returns (r: Result<(), HostError>)
      requires Valid()
      modifies this`table, this`written
      ensures Valid() && StrandedStay()
      ensures var refusal := FirstCommitRefusal(old(table), this, ws, 0);
              r == if refusal.Some? then Err(refusal.value) else Ok(())
      ensures if r.Ok? then BatchPublished(old(table), table, ws) else table == old(table)
      ensures written == old(written) + if r.Ok? then CommitMarks(ws) else {}
      ensures r.Ok? <==>
              (forall i :: 0 <= i < |ws| ==> Committable(old(table), this, ws[i])) &&
              forall i, j :: 0 <= i < j < |ws| ==> ws[i].slot != ws[j].slot
      ensures r.Ok? ==> forall i :: 0 <= i < |ws| ==>
                ws[i].slot in table.at && ActiveOf(table.at[ws[i].slot]) == Some(ws[i].value)
      ensures ViewedStay(old(table), table)
    {
      hide SlotsOk, ViewsOk, WindowsOk, IssuedOk, Sourced, Holds, FirstCommitRefusal, BatchPublished, Committed,
        CommitMarks, Dated, Committable, ViewedStay;
      CommitsExactly(table, this, ws);
      SameStay(table);
      var refusal := AdmitWrites(ws);
      if refusal.Some? {
        return Err(refusal.value);
      }
      CommitMeans(table, this, ws);
      CommitKeeps(ws);
      PublishBatch(ws);
      written := written + CommitMarks(ws);
      return Ok(());
    }

    /** Checks a batch of owned values in order. */
    method AdmitWrites(ws: seq<PendingWrite>) returns (refusal: Option<HostError>)
      ensures refusal == FirstCommitRefusal(table, this, ws, 0)
    {
      hide FirstCommitRefusal, Ordinal, CommitRefused;
      var seen: set<int> := {};
      for i := 0 to |ws|
        invariant FirstCommitRefusal(table, this, ws, 0) == FirstCommitRefusal(table, this, ws, i)
        invariant forall k :: k in seen <==> Ordinal(AsRequests(ws)[..i], k).Some?
      {
        refusal := CheckWrite(ws, i, seen);
        FirstRefusalStep(table, this, ws, i);
        if refusal.Some? {
          return;
        }
        RequestedNext(AsRequests(ws), i);
        seen := seen + {ws[i].slot};
      }
      FirstRefusalEnd(table, this, ws);
      return None;
    }

    /** What an accepted batch leaves is in order. */
    lemma CommitKeeps(ws: seq<PendingWrite>)
      requires Books() && FirstCommitRefusal(table, this, ws, 0).None?
      ensures BatchPublished(table, Committed(table, ws), ws)
      ensures var u, marked := Committed(table, ws), written + CommitMarks(ws);
              SlotsOk(u) && ViewsOk(u, views) && WindowsOk(u, windows) && IssuedOk(u, issued) && Sourced(u, marked) &&
              Dated(u, marked) && HoldsKept(table, u) && LeasedKept(table, u)
    {
      hide SlotsOk, ViewsOk, WindowsOk, IssuedOk, Sourced, Evolved, FirstCommitRefusal, BatchPublished, Committed;
      hide CommitMarks, Dated, HoldsKept, LeasedKept;
      var u, marked := Committed(table, ws), written + CommitMarks(ws);
      CommitPublishes(table, this, ws);
      CommitEvolved(table, this, ws, written);
      EvolvedBooks(table, u, marked, views, windows, issued);
      EvolvedLeased(table, u, marked);
      CommitMarksDated(table, this, ws);
      DatedAfter(table, u, written, CommitMarks(ws), marked);
    }

    /** Writes an accepted batch into the inactive banks and exchanges them. */
    method PublishBatch(ws: seq<PendingWrite>)
      requires FirstCommitRefusal(table, this, ws, 0).None?
      modifies this`table
      ensures table == Committed(old(table), ws)
    {
      hide FirstCommitRefusal, Committed, Distinct;
      ghost var t := table;
      CommitDistinct(t, this, ws);
      Scribble(AsRequests(ws), ValuesOf(ws));
      CommitSteps(t, table, ws);
      Flip(AsRequests(ws), false);
    }

    method CheckWrite(ws: seq<PendingWrite>, i: nat, seen: set<int>) returns (refusal: Option<HostError>)
      requires i < |ws| && forall k :: k in seen <==> Ordinal(AsRequests(ws)[..i], k).Some?
      ensures refusal == CommitRefused(table, this, ws, i)
    {
      hide Ordinal;
      var w := ws[i];
      if w.owner != this {
        return Option.Some(OwnerMismatch);
      }
      if w.slot in seen {
        return Option.Some(OutstandingBorrow(w.slot));
      }
      var live := LiveSlot(w.slot, w.generation);
      if live.Err? {
        return Option.Some(live.error);
      }
      if live.value.views != 0 || live.value.window {
        return Option.Some(OutstandingBorrow(w.slot));
      }
      if live.value.descriptor != Option.Some(w.descriptor) || w.value.shape != w.descriptor.shape ||
         w.value.dtype != w.descriptor.dtype {
        return Option.Some(IncompatibleDescriptor);
      }
      return None;
    }

    /**
     * Shows a callback the requested active tensors: each was written under the requested generation, or is its zero.
     */
    method WithActive<T, E>(rs: seq<Request>, read: seq<Read> -> Result<T, E>) returns (r: Result<T, ReadError<E>>)
      requires Valid()
      ensures var refusal := FirstReadRefusal(table, this, rs, 0);
              match refusal
              case Some(e) => r == Err(HostRead(e))
              case None =>
                (forall i :: 0 <= i < |rs| ==> SourcedRead(rs[i], Reads(table, this, rs)[i].tensor, written)) &&
                r == match read(Reads(table, this, rs)) case Ok(v) => Ok(v) case Err(e) => Err(Callback(e))
      ensures r.Ok? || r.error.Callback? <==> (forall i :: 0 <= i < |rs| ==> Readable(table, this, rs[i])) && Apart(rs)
    {
      hide SlotsOk, ViewsOk, WindowsOk, IssuedOk, Sourced, Holds, FirstReadRefusal, Reads, ReadRefused, Ordinal;
      hide Readable, Apart;
      ReadsExactly(table, this, rs);
      var seen: set<int> := {};
      for i := 0 to |rs|
        invariant FirstReadRefusal(table, this, rs, 0) == FirstReadRefusal(table, this, rs, i)
        invariant forall k :: k in seen <==> Ordinal(rs[..i], k).Some?
      {
        var refusal := CheckRead(rs, i, seen);
        FirstReadStep(table, this, rs, i);
        if refusal.Some? {
          return Err(HostRead(refusal.value));
        }
        RequestedNext(rs, i);
        seen := seen + {rs[i].slot};
      }
      FirstReadEnd(table, this, rs);
      ReadsSourced(table, this, rs, written);
      match read(Reads(table, this, rs))
      case Ok(v) => return Ok(v);
      case Err(e) => return Err(Callback(e));
    }

    method CheckRead(rs: seq<Request>, i: nat, seen: set<int>) returns (refusal: Option<HostError>)
      requires i < |rs| && forall k :: k in seen <==> Ordinal(rs[..i], k).Some?
      ensures refusal == ReadRefused(table, this, rs, i)
    {
      hide Ordinal;
      var q := rs[i];
      if q.owner != this || q.slot in seen {
        return Option.Some(OwnerMismatch);
      }
      var live := LiveSlot(q.slot, q.generation);
      if live.Err? {
        return Option.Some(live.error);
      }
      if live.value.window {
        return Option.Some(OutstandingBorrow(q.slot));
      }
      if live.value.descriptor != Option.Some(q.descriptor) {
        return Option.Some(IncompatibleDescriptor);
      }
      match ActiveOf(live.value)
      case None => return Option.Some(MissingValue(q.descriptor.bufferId));
      case Some(active) =>
        return if Matches(active, q.descriptor) then None else Option.Some(IncompatibleDescriptor);
    }
  }

  ghost predicate Undisturbed(t: Table, u: Table, views: multiset<ReadView>, windows: multiset<Window>) {
    (forall v :: v in views ==> v.slot in t.at && v.slot in u.at && u.at[v.slot] == t.at[v.slot]) &&
    forall w :: w in windows ==> w.slot in t.at && w.slot in u.at && u.at[w.slot] == t.at[w.slot]
  }

  /** Slots with a view or a window out are as they were. */
  ghost predicate ViewedStay(t: Table, u: Table) {
    forall k :: k in t.at && (t.at[k].views != 0 || t.at[k].window) ==> k in u.at && u.at[k] == t.at[k]
  }

  lemma TransactMeans<T, E>(t: Table, me: object, rs: seq<Request>, stage: seq<Bank> -> Staged<T, E>)
    ensures var x := HostSlots.Transact(t, me, rs, stage);
            (x.result.Ok? || x.result.error.Stage? ==>
               (forall i :: 0 <= i < |rs| ==> Granted(t, me, rs[i]) && HasActive(t, rs[i])) && Apart(rs)) &&
            ViewedStay(t, x.table)
  {
    hide HostSlots.Transact, Admit, Granted, HasActive, Apart;
    OpensExactly(t, me, rs);
    OutcomeMeans(t, me, rs, stage);
    forall k | k in t.at && (t.at[k].views != 0 || t.at[k].window)
      ensures k in HostSlots.Transact(t, me, rs, stage).table.at
      ensures HostSlots.Transact(t, me, rs, stage).table.at[k] == t.at[k]
    {
      TransactSpares(t, me, rs, stage, k);
    }
  }

  lemma SameStay(t: Table)
    ensures ViewedStay(t, t)
  {
  }

  lemma CommitMeans(t: Table, me: object, ws: seq<PendingWrite>)
    requires FirstCommitRefusal(t, me, ws, 0).None?
    ensures ViewedStay(t, Committed(t, ws))
    ensures forall i :: 0 <= i < |ws| ==>
              ws[i].slot in Committed(t, ws).at && ActiveOf(Committed(t, ws).at[ws[i].slot]) == Some(ws[i].value)
  {
    hide FirstCommitRefusal, Committed, Ordinal;
    CommitsExactly(t, me, ws);
    CommitPublishes(t, me, ws);
    assert forall i :: 0 <= i < |ws| ==> WritePublished(t, Committed(t, ws), ws[i]);
  }

  // Steps of a batch

  lemma RequestedNext(rs: seq<Request>, i: nat)
    requires i < |rs|
    ensures forall k :: Ordinal(rs[..i + 1], k).Some? <==> Ordinal(rs[..i], k).Some? || k == rs[i].slot
  {
    hide Ordinal;
    forall k
      ensures Ordinal(rs[..i + 1], k).Some? <==> Ordinal(rs[..i], k).Some? || k == rs[i].slot
    {
      OrdinalNext(rs, i, k);
    }
  }

  ghost function CommitMarks(ws: seq<PendingWrite>): set<Mark> {
    set i: nat | i < |ws| :: Mark(ws[i].slot, ws[i].generation, ws[i].value)
  }

  lemma FirstRefusalStep(t: Table, me: object, ws: seq<PendingWrite>, i: nat)
    requires i < |ws|
    ensures FirstCommitRefusal(t, me, ws, i) ==
            if CommitRefused(t, me, ws, i).Some? then CommitRefused(t, me, ws, i)
              else FirstCommitRefusal(t, me, ws, i + 1)
  {
    hide CommitRefused;
  }

  lemma FirstRefusalEnd(t: Table, me: object, ws: seq<PendingWrite>)
    ensures FirstCommitRefusal(t, me, ws, |ws|).None?
  {
  }

  lemma CommitDistinct(t: Table, me: object, ws: seq<PendingWrite>)
    requires FirstCommitRefusal(t, me, ws, 0).None?
    ensures Distinct(t, AsRequests(ws))
  {
    hide Ordinal, FirstCommitRefusal;
    forall i | 0 <= i < |ws|
      ensures AsRequests(ws)[i].slot in t.at && Ordinal(AsRequests(ws)[..i], AsRequests(ws)[i].slot).None?
    {
      CommitOrdinal(t, me, ws, i);
    }
  }

  lemma CommitSteps(t: Table, u: Table, ws: seq<PendingWrite>)
    requires Distinct(t, AsRequests(ws)) && u == Scribbled(t, AsRequests(ws), ValuesOf(ws), |ws|)
    ensures Distinct(u, AsRequests(ws)) && Exchanged(u, AsRequests(ws), |ws|) == Committed(t, ws)
  {
    hide Ordinal, Scribbled, Exchanged;
    ScribbledKeys(t, AsRequests(ws), ValuesOf(ws), |ws|);
  }

  lemma CommitEvolved(t: Table, me: object, ws: seq<PendingWrite>, written: set<Mark>)
    requires FirstCommitRefusal(t, me, ws, 0).None? && Sourced(t, written)
    ensures Evolved(t, Committed(t, ws), written + CommitMarks(ws))
  {
    hide FirstCommitRefusal, Committed, Ordinal, Evolved, SlotSourced, Sourced, SameSlotBooks, CommitMarks;
    var u, marks := Committed(t, ws), written + CommitMarks(ws);
    CommittedKeys(t, ws);
    forall k | k in t.at
      ensures k in u.at && SameSlotBooks(t.at[k], u.at[k]) && SlotSourced(k, u.at[k], marks)
    {
      SlotSourcedAt(t, k, written);
      if i :| 0 <= i < |ws| && ws[i].slot == k {
        CommitOrdinal(t, me, ws, i);
        CommittedAt(t, ws, i);
        CommitSlot(k, t.at[k], ws, i, written);
      } else {
        CommittedElsewhere(t, ws, k);
        SameSlotSelf(t.at[k]);
        MoreMarks(k, t.at[k], written, marks);
      }
    }
    EvolvedPointwise(t, u, marks);
  }

  lemma CommitMarksDated(t: Table, me: object, ws: seq<PendingWrite>)
    requires FirstCommitRefusal(t, me, ws, 0).None?
    ensures Dated(t, CommitMarks(ws))
  {
    hide FirstCommitRefusal, Ordinal;
    forall i | 0 <= i < |ws|
      ensures ws[i].slot in t.at && t.at[ws[i].slot].generation == ws[i].generation
    {
      CommitOrdinal(t, me, ws, i);
    }
  }

  lemma MoreMarks(k: int, s: Slot, written: set<Mark>, marks: set<Mark>)
    requires SlotSourced(k, s, written) && written <= marks
    ensures SlotSourced(k, s, marks)
  {
  }

  lemma CommitSlot(k: int, s: Slot, ws: seq<PendingWrite>, i: nat, written: set<Mark>)
    requires SlotSourced(k, s, written) && s.leased && i < |ws| && ws[i].slot == k && ws[i].generation == s.generation
    ensures var u := Flipped(WithInactive(s, ws[i].value));
            SameSlotBooks(s, u) && SlotSourced(k, u, written + CommitMarks(ws))
  {
    hide ZeroTensor;
    assert Mark(k, s.generation, ws[i].value) in CommitMarks(ws);
    assert forall v :: SourcedValue(k, s, written, v) ==> SourcedValue(k, s, written + CommitMarks(ws), v);
  }

  /** The tensor was written under the requested slot and generation, or is that descriptor's zero. */
  ghost predicate SourcedRead(r: Request, v: Tensor, written: set<Mark>) {
    Mark(r.slot, r.generation, v) in written || ZeroTensor(r.descriptor) == Some(v)
  }

  /** Both banks a transaction shows its callback belong to the requested generation, or are its zero. */
  lemma BanksSourced(t: Table, me: object, rs: seq<Request>, i: nat, written: set<Mark>)
    requires Admit(t, me, rs).Open? && Sourced(t, written) && i < |rs|
    ensures var banks := Admit(t, me, rs).banks;
            |banks| == |rs| && SourcedRead(rs[i], banks[i].active, written) &&
            (banks[i].inactive.Some? ==> SourcedRead(rs[i], banks[i].inactive.value, written))
  {
    hide FirstMissing, Ordinal, ZeroTensor, Matches, Ready, Prepared;
    AdmitOpens(t, me, rs);
    AdmittedOrdinal(t, me, rs, i);
    AdmittedLeased(t, me, rs, i);
    PreparedEvolved(t, me, rs, |rs|, written);
    var p, k := Prepared(t, rs, |rs|), rs[i].slot;
    assert SameSlotBooks(t.at[k], p.at[k]);
    SlotSourcedAt(p, k, written);
    var s := p.at[k];
    assert SourcedValue(k, s, written, s.values[s.active].value);
    assert s.values[1 - s.active].Some? ==> SourcedValue(k, s, written, s.values[1 - s.active].value);
  }

  lemma FirstReadStep(t: Table, me: object, rs: seq<Request>, i: nat)
    requires i < |rs|
    ensures FirstReadRefusal(t, me, rs, i) ==
            if ReadRefused(t, me, rs, i).Some? then ReadRefused(t, me, rs, i) else FirstReadRefusal(t, me, rs, i + 1)
  {
    hide ReadRefused;
  }

  lemma FirstReadEnd(t: Table, me: object, rs: seq<Request>)
    ensures FirstReadRefusal(t, me, rs, |rs|).None?
  {
  }

  lemma ReadsSourced(t: Table, me: object, rs: seq<Request>, written: set<Mark>)
    requires FirstReadRefusal(t, me, rs, 0).None? && Sourced(t, written)
    ensures forall i :: 0 <= i < |rs| ==> SourcedRead(rs[i], Reads(t, me, rs)[i].tensor, written)
  {
    hide FirstReadRefusal, Reads, Ordinal, ZeroTensor, Matches;
    forall i | 0 <= i < |rs|
      ensures SourcedRead(rs[i], Reads(t, me, rs)[i].tensor, written)
    {
      assert ReadRefused(t, me, rs, i).None?;
      var s := t.at[rs[i].slot];
      assert SourcedValue(rs[i].slot, s, written, s.values[s.active].value);
    }
  }

  // Steps of a transaction

  lemma EvolvedBooks(t: Table, u: Table, written: set<Mark>, views: multiset<ReadView>, windows: multiset<Window>,
                     issued: set<Window>)
    requires SlotsOk(t) && ViewsOk(t, views) && WindowsOk(t, windows) && IssuedOk(t, issued) && Evolved(t, u, written)
    ensures SlotsOk(u) && ViewsOk(u, views) && WindowsOk(u, windows) && IssuedOk(u, issued) && Sourced(u, written)
    ensures HoldsKept(t, u)
  {
    hide SlotsOk, ViewsOk, WindowsOk, IssuedOk, Sourced, Holds;
    SameBooksKept(t, u, views, windows, issued);
  }

  lemma AdmitRefused(t: Table, me: object, rs: seq<Request>, u: Table, e: HostError)
    requires AdmitOutcome(t, me, rs, u, Some(e))
    ensures Admit(t, me, rs) == Rejected(e, u)
  {
    hide Prepared, Refused, FirstMissing, Banks;
  }

  lemma AdmitPassed(t: Table, me: object, rs: seq<Request>, u: Table)
    requires AdmitOutcome(t, me, rs, u, None)
    ensures Admitted(t, me, rs, 0) == |rs| && u == Prepared(t, rs, |rs|) && Provided(u, rs) && Distinct(u, rs)
    ensures forall r: seq<Request> :: FullFrontier(t, r) ==> FullFrontier(u, r)
  {
    hide Refused, Ordinal, Prepared, PreparedSlot, Unfit, Ready;
    PreparedKeys(t, rs, |rs|);
    AdmittedEnd(t, me, rs);
    forall i | 0 <= i < |rs|
      ensures Ordinal(rs, rs[i].slot) == Some(i) && rs[i].slot in u.at && Ordinal(rs[..i], rs[i].slot).None?
      ensures !rs[i].retain ==> InactiveOf(u.at[rs[i].slot]).Some?
    {
      AdmittedOrdinal(t, me, rs, i);
      assert forall j :: 0 <= j < i ==> rs[..i][j] == rs[j];
      PreparedLookup(t, rs, rs[i].slot);
      if !rs[i].retain {
        ReadyBank(t.at[rs[i].slot], rs[i]);
      }
    }
  }

  lemma AdmittedEnd(t: Table, me: object, rs: seq<Request>)
    requires forall i :: 0 <= i < |rs| ==> Refused(t, me, rs, i).None?
    ensures Admitted(t, me, rs, 0) == |rs|
  {
  }

  lemma PreparedLookup(t: Table, rs: seq<Request>, k: int)
    requires k in t.at && Ordinal(rs, k).Some?
    ensures k in Prepared(t, rs, |rs|).at && Prepared(t, rs, |rs|).at[k] == Ready(t.at[k], rs[Ordinal(rs, k).value])
  {
    hide Ordinal, Ready;
    assert rs[..|rs|] == rs;
  }

  lemma ReadyBank(s: Slot, r: Request)
    requires Unfit(s, r).None? && !r.retain
    ensures InactiveOf(Ready(s, r)).Some?
  {
    hide ZeroTensor, Matches;
  }

  lemma AdmitCollected(t: Table, me: object, rs: seq<Request>, u: Table, r: Result<seq<Bank>, HostError>)
    requires Admitted(t, me, rs, 0) == |rs| && u == Prepared(t, rs, |rs|) && CollectOutcome(u, rs, r)
    ensures Admit(t, me, rs) == match r case Ok(banks) => Open(u, banks) case Err(e) => Rejected(e, u)
    ensures r.Ok? ==> |r.value| == |rs|
  {
    hide Prepared, FirstMissing, Staffed, Admitted, AlikeTables;
    PreparedAlike(t, rs, |rs|);
    FirstMissingAlike(t, u, rs, 0);
  }

  lemma ConcludeSteps<T, E>(p: Table, u: Table, rs: seq<Request>, banks: seq<Bank>, out: Staged<T, E>)
    requires |rs| == |banks| && u == Scribbled(p, rs, Successors(banks, out.written), |rs|) && Distinct(p, rs)
    ensures Conclude(p, rs, banks, out) ==
            match out.result
            case Err(e) => Transaction(Err(Stage(e)), u)
            case Ok(value) =>
              if Agreeing(rs, Successors(banks, out.written)) then Transaction(Ok(value), Exchanged(u, rs, |rs|))
              else Transaction(Err(Host(IncompatibleDescriptor)), u)
    ensures Distinct(u, rs) && forall r: seq<Request> :: FullFrontier(p, r) ==> FullFrontier(u, r)
  {
    hide Ordinal, Scribbled, Exchanged, Agreeing, Successors;
    ScribbledKeys(p, rs, Successors(banks, out.written), |rs|);
  }

  // Steps of a collection

  /** Every request is the first for its slot, and unless retained has a successor bank. */
  ghost predicate Provided(t: Table, rs: seq<Request>) {
    forall i :: 0 <= i < |rs| ==>
      Ordinal(rs, rs[i].slot) == Some(i) && rs[i].slot in t.at && (!rs[i].retain ==> InactiveOf(t.at[rs[i].slot]).Some?)
  }

  ghost predicate CollectOutcome(t: Table, rs: seq<Request>, r: Result<seq<Bank>, HostError>) {
    match FirstMissing(t, rs, 0)
    case Some(id) => r == Err(MissingValue(id))
    case None => Staffed(t, rs) && r == Ok(Banks(t, rs))
  }

  lemma BankIs(t: Table, rs: seq<Request>, o: nat)
    requires Provided(t, rs) && o < |rs| && rs[o].slot in t.at && ActiveOf(t.at[rs[o].slot]).Some?
    ensures var s := t.at[rs[o].slot];
            var b := Bank(o, rs[o].descriptor.bufferId, ActiveOf(s).value,
                          if rs[o].retain then None else InactiveOf(s));
            b == BankAt(t, rs, o) && IsBank(t, rs, b)
  {
  }

  /** One table position of a full frontier: its own request's bank, or the missing value. */
  lemma FrontierStep(t: Table, rs: seq<Request>, j: nat)
    requires FullFrontier(t, rs) && Provided(t, rs) && j < |t.keys|
    ensures j < |rs| && t.keys[j] in t.at
    ensures var s := t.at[t.keys[j]];
            if ActiveOf(s).None? then FirstMissing(t, rs, j) == Some(rs[j].descriptor.bufferId)
            else
              FirstMissing(t, rs, j) == FirstMissing(t, rs, j + 1) &&
              IsBank(t, rs, Bank(j, rs[j].descriptor.bufferId, ActiveOf(s).value,
                                 if rs[j].retain then None else InactiveOf(s)))
  {
    hide Ordinal, Provided, IsBank, BankAt;
    FrontierOrdinal(t, rs, j);
    if ActiveOf(t.at[t.keys[j]]).Some? {
      BankIs(t, rs, j);
    }
  }

  lemma FrontierEnd(t: Table, rs: seq<Request>)
    requires FullFrontier(t, rs)
    ensures |rs| == |t.keys| && FirstMissing(t, rs, |t.keys|).None?
  {
  }

  lemma ProvidedStaffed(t: Table, rs: seq<Request>)
    requires Provided(t, rs) && FirstMissing(t, rs, 0).None?
    ensures Staffed(t, rs) && forall i :: 0 <= i < |rs| ==> Ordinal(rs, rs[i].slot) == Some(i)
  {
    hide Ordinal;
    NoneMissing(t, rs, 0);
    forall i | 0 <= i < |rs|
      ensures ActiveOf(t.at[rs[i].slot]).Some?
    {
      assert rs[i].slot in t.keys;
    }
    forall i, j | 0 <= i < j < |rs|
      ensures rs[i].slot != rs[j].slot
    {
      assert Ordinal(rs, rs[i].slot) == Some(i) && Ordinal(rs, rs[j].slot) == Some(j);
    }
  }

  lemma CollectedNone(t: Table, rs: seq<Request>)
    ensures Collected(t, rs, 0, [])
  {
  }

  /** Requests for distinct slots of the table. */
  ghost predicate Distinct(t: Table, rs: seq<Request>) {
    forall i :: 0 <= i < |rs| ==> rs[i].slot in t.at && Ordinal(rs[..i], rs[i].slot).None?
  }

  lemma DistinctAt(t: Table, rs: seq<Request>, i: nat)
    requires Distinct(t, rs) && i < |rs|
    ensures rs[i].slot in t.at && Ordinal(rs[..i], rs[i].slot).None?
  {
  }

  lemma ScribbledKeys(t: Table, rs: seq<Request>, values: seq<Tensor>, n: nat)
    requires n <= |rs| == |values|
    ensures Scribbled(t, rs, values, n).keys == t.keys && forall k :: k in Scribbled(t, rs, values, n).at <==> k in t.at
  {
  }

  lemma ExchangedKeys(t: Table, rs: seq<Request>, n: nat)
    requires n <= |rs|
    ensures Exchanged(t, rs, n).keys == t.keys && forall k :: k in Exchanged(t, rs, n).at <==> k in t.at
  {
  }

  lemma PutSame(t: Table, k: int)
    requires k in t.at
    ensures Put(t, k, t.at[k]) == t
  {
    assert t.at[k := t.at[k]] == t.at;
  }

  // Steps of an admission

  /** The first `i` requests are admitted and readied in `u`. */
  ghost predicate AdmittedTo(t: Table, me: object, rs: seq<Request>, i: nat, u: Table) {
    i <= |rs| && u == Prepared(t, rs, i) && forall j :: 0 <= j < i ==> Refused(t, me, rs, j).None?
  }

  /**
   * An admission over `t` that ended in `u` did what the specification says, for all requests or up to the first
   * refusal.
   */
  ghost predicate AdmitOutcome(t: Table, me: object, rs: seq<Request>, u: Table, refusal: Option<HostError>) {
    var n := Admitted(t, me, rs, 0);
    u == Prepared(t, rs, n) && refusal == if n < |rs| then Refused(t, me, rs, n) else None
  }

  /** The map sends every slot of the first `i` requests to its request. */
  ghost predicate KeyedBy(rs: seq<Request>, i: nat, requested: map<int, nat>) {
    i <= |rs| && forall k ::
      if Ordinal(rs[..i], k).Some? then k in requested && requested[k] == Ordinal(rs[..i], k).value
                             else k !in requested
  }

  lemma AdmitStart(t: Table, me: object, rs: seq<Request>)
    ensures AdmittedTo(t, me, rs, 0, t)
  {
    NothingYet(t, rs, []);
  }

  lemma AdmitEnd(t: Table, me: object, rs: seq<Request>, u: Table)
    requires AdmittedTo(t, me, rs, |rs|, u)
    ensures AdmitOutcome(t, me, rs, u, None)
  {
    hide Prepared, Refused;
    AdmittedIs(t, me, rs, |rs|);
  }

  /** Request `i` is checked against the slot it would have been checked against at the start. */
  lemma AdmitStep(t: Table, me: object, rs: seq<Request>, i: nat, u: Table)
    requires i < |rs| && AdmittedTo(t, me, rs, i, u)
    ensures rs[i].slot in u.at <==> rs[i].slot in t.at
    ensures rs[i].owner != me || Ordinal(rs[..i], rs[i].slot).Some? ==> AdmitOutcome(t, me, rs, u, Some(OwnerMismatch))
    ensures rs[i].owner == me && Ordinal(rs[..i], rs[i].slot).None? ==>
              var k := rs[i].slot;
              if k !in t.at then AdmitOutcome(t, me, rs, u, Some(MissingSlot(k)))
              else if Unfit(u.at[k], rs[i]).Some? then AdmitOutcome(t, me, rs, u, Unfit(u.at[k], rs[i]))
              else AdmittedTo(t, me, rs, i + 1, Put(u, k, Ready(u.at[k], rs[i])))
  {
    hide Ordinal, Unfit, Ready, Prepared, Put;
    PreparedKeys(t, rs, i);
    AdmittedIsOr(t, me, rs, i);
    if rs[i].slot in t.at && Ordinal(rs[..i], rs[i].slot).None? {
      PreparedNext(t, rs, i);
    }
  }

  lemma KeyedNext(rs: seq<Request>, i: nat, requested: map<int, nat>)
    requires i < |rs| && KeyedBy(rs, i, requested)
    ensures rs[i].slot in requested <==> Ordinal(rs[..i], rs[i].slot).Some?
    ensures rs[i].slot !in requested ==> KeyedBy(rs, i + 1, requested[rs[i].slot := i])
  {
    hide Ordinal;
    forall k
      ensures Ordinal(rs[..i + 1], k) == if Ordinal(rs[..i], k).Some? then Ordinal(rs[..i], k)
                                         else if rs[i].slot == k then Some(i) else None
    {
      OrdinalNext(rs, i, k);
    }
  }

  lemma AdmittedIsOr(t: Table, me: object, rs: seq<Request>, n: nat)
    requires n < |rs| && forall i :: 0 <= i < n ==> Refused(t, me, rs, i).None?
    ensures Refused(t, me, rs, n).Some? ==> Admitted(t, me, rs, 0) == n
  {
    if Refused(t, me, rs, n).Some? {
      AdmittedIs(t, me, rs, n);
    }
  }

  lemma PreparedKeys(t: Table, rs: seq<Request>, n: nat)
    requires n <= |rs|
    ensures Prepared(t, rs, n).keys == t.keys && forall k :: k in Prepared(t, rs, n).at <==> k in t.at
  {
  }

  /** A live view is current, counted, and of a leased slot. */
  lemma ViewFacts(t: Table, v: ReadView, views: multiset<ReadView>)
    requires SlotsOk(t) && ViewsOk(t, views) && v in views
    ensures v.slot in t.at
    ensures var s := t.at[v.slot];
            s.leased && s.generation == v.generation && s.descriptor == Some(v.descriptor) && 0 < s.views &&
            views - multiset{v} == views[ViewOf(v.slot, s) := s.views - 1]
  {
    assert SlotOk(t.at[v.slot]);
    assert views[ViewOf(v.slot, t.at[v.slot])] == t.at[v.slot].views;
  }
}
