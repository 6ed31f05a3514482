/** Slots, banks and requests of the host pool, and the specification of its multi-slot transaction. */
module HostSlots {
  import opened Wrappers
  import Shapes

  /** The largest 64-bit count: generations, views and byte sizes stay at or below it. */
  const LIMIT: nat := Shapes.COUNT_LIMIT

  datatype DType =
    | Bool | I8 | U8 | I16 | U16 | I32 | U32 | I64 | U64
    | F8E4M3 | F8E5M2 | F8E4M3FNUZ | F8E5M2FNUZ | F16 | BF16 | F32 | F64

  function ItemSize(t: DType): nat {
    match t
    case I16 => 2 case U16 => 2 case F16 => 2 case BF16 => 2
    case I32 => 4 case U32 => 4 case F32 => 4
    case I64 => 8 case U64 => 8 case F64 => 8
    case _ => 1
  }

  datatype RawTensor = RawTensor(dtype: DType, shape: seq<nat>, cells: seq<int>)

  /** A tensor by its dtype, its shape and the raw cells it stores, one for each element. */
  type Tensor = t: RawTensor | Shapes.CheckedNumel(t.shape) == Some(|t.cells|)
    witness RawTensor(Bool, [], [0])

  datatype Descriptor =
    Descriptor(bufferId: nat, dtype: DType, shape: seq<nat>, bytes: nat, alignment: nat, lanes: nat)

  datatype HostError =
    | Overflow
    | OwnerMismatch
    | StaleGeneration(slot: int, generation: nat)
    | LogicalBounds(requested: nat, capacity: nat)
    | IncompatibleDescriptor
    | DoubleRelease(slot: int)
    | OutstandingBorrow(slot: int)
    | MissingSlot(slot: int)
    | MissingValue(bufferId: nat)

  function ZeroTensor(d: Descriptor): Option<Tensor> {
    match Shapes.CheckedNumel(d.shape)
    case None => None
    case Some(n) => Some(RawTensor(d.dtype, d.shape, seq(n, _ => 0)))
  }

  predicate Matches(v: Tensor, d: Descriptor) {
    v.shape == d.shape && v.dtype == d.dtype &&
    |v.cells| * ItemSize(v.dtype) <= LIMIT && |v.cells| * ItemSize(v.dtype) == d.bytes
  }

  datatype RawSlot =
    RawSlot(generation: nat, capacity: nat, descriptor: Option<Descriptor>, values: seq<Option<Tensor>>, active: nat,
            leased: bool, views: nat, window: bool)

  /** Exactly two banks, one of which is active. */
  type Slot = s: RawSlot | |s.values| == 2 && s.active < 2
    witness RawSlot(0, 0, None, [None, None], 0, false, 0, false)

  function Blank(capacity: nat): Slot {
    RawSlot(0, capacity, None, [None, None], 0, false, 0, false)
  }

  function ActiveOf(s: Slot): Option<Tensor> {
    s.values[s.active]
  }

  function InactiveOf(s: Slot): Option<Tensor> {
    s.values[1 - s.active]
  }

  function WithInactive(s: Slot, v: Tensor): (r: Slot)
    ensures ActiveOf(r) == ActiveOf(s) && InactiveOf(r) == Some(v)
  {
    s.(values := s.values[1 - s.active := Some(v)])
  }

  function Flipped(s: Slot): (r: Slot)
    ensures ActiveOf(r) == InactiveOf(s) && InactiveOf(r) == ActiveOf(s)
  {
    s.(active := 1 - s.active)
  }

  // The ordered slot table

  datatype RawTable = RawTable(keys: seq<int>, at: map<int, Slot>)

  /** A map from slot numbers, iterated in ascending order. */
  type Table = t: RawTable | Ascending(t.keys) && forall k :: k in t.keys <==> k in t.at
    witness RawTable([], map[])

  predicate Ascending(keys: seq<int>) {
    forall i, j :: 0 <= i < j < |keys| ==> keys[i] < keys[j]
  }

  function Inserted(keys: seq<int>, k: int): (r: seq<int>)
    requires Ascending(keys)
    ensures Ascending(r) && forall x :: x in r <==> x == k || x in keys
  {
    if |keys| == 0 then [k]
    else if k < keys[0] then
      ConsAscending(k, keys);
      [k] + keys
    else if k == keys[0] then keys
    else
      var rest := Inserted(keys[1..], k);
      assert forall i :: 0 <= i < |rest| ==> rest[i] in rest;
      ConsAscending(keys[0], rest);
      [keys[0]] + rest
  }

  lemma ConsAscending(k: int, keys: seq<int>)
    requires Ascending(keys) && forall i :: 0 <= i < |keys| ==> k < keys[i]
    ensures Ascending([k] + keys)
  {
    var all := [k] + keys;
    forall i, j | 0 <= i < j < |all|
      ensures all[i] < all[j]
    {
      assert all[j] == keys[j - 1];
    }
  }

  function Put(t: Table, k: int, s: Slot): (r: Table)
    ensures r.at == t.at[k := s]
    ensures k in t.at ==> r.keys == t.keys
  {
    hide Inserted, Ascending;
    RawTable(if k in t.at then t.keys else Inserted(t.keys, k), t.at[k := s])
  }

  // Bank requests

  datatype Request = Request(owner: object, slot: int, generation: nat, descriptor: Descriptor, retain: bool)

  /** The first request for slot `key`. */
  function Ordinal(rs: seq<Request>, key: int): (o: Option<nat>)
    ensures o.Some? ==> o.value < |rs| && rs[o.value].slot == key && forall j :: 0 <= j < o.value ==> rs[j].slot != key
    ensures o.None? ==> forall j :: 0 <= j < |rs| ==> rs[j].slot != key
  {
    if |rs| == 0 then None
    else
      var n := |rs| - 1;
      match Ordinal(rs[..n], key)
      case Some(o) => Some(o)
      case None => if rs[n].slot == key then Some(n) else None
  }

  /** The zero tensor a request needs put into the inactive bank, if it needs one. */
  predicate NeedsZero(s: Slot, r: Request) {
    !r.retain && (InactiveOf(s).None? || !Matches(InactiveOf(s).value, r.descriptor))
  }

  /** Why a slot does not admit a request. */
  function Unfit(s: Slot, r: Request): Option<HostError> {
    if s.generation != r.generation || !s.leased then Some(StaleGeneration(r.slot, r.generation))
    else if s.views != 0 || s.window then Some(OutstandingBorrow(r.slot))
    else if s.descriptor != Some(r.descriptor) then Some(IncompatibleDescriptor)
    else if NeedsZero(s, r) && ZeroTensor(r.descriptor).None? then Some(IncompatibleDescriptor)
    else None
  }

  /** The slot with a usable inactive bank. */
  function Ready(s: Slot, r: Request): Slot {
    if NeedsZero(s, r) && ZeroTensor(r.descriptor).Some? then WithInactive(s, ZeroTensor(r.descriptor).value) else s
  }

  /**
   * Why request `k` is refused: a foreign pool or a repeated slot first, then a missing slot, then the slot's own
   * state.
   */
  function Refused(t: Table, me: object, rs: seq<Request>, k: nat): Option<HostError>
    requires k < |rs|
  {
    var r := rs[k];
    if r.owner != me || Ordinal(rs[..k], r.slot).Some? then Some(OwnerMismatch)
    else if r.slot !in t.at then Some(MissingSlot(r.slot))
    else Unfit(t.at[r.slot], r)
  }

  /** The number of requests admitted before the first refusal, from request `k` on. */
  function Admitted(t: Table, me: object, rs: seq<Request>, k: nat): (n: nat)
    requires k <= |rs|
    ensures k <= n <= |rs|
    ensures forall i :: k <= i < n ==> Refused(t, me, rs, i).None?
    ensures n < |rs| ==> Refused(t, me, rs, n).Some?
    decreases |rs| - k
  {
    if k == |rs| || Refused(t, me, rs, k).Some? then k else Admitted(t, me, rs, k + 1)
  }

  /** The table once the first `n` requests have their inactive banks readied. */
  function Prepared(t: Table, rs: seq<Request>, n: nat): Table
    requires n <= |rs|
  {
    RawTable(t.keys, map k | k in t.at :: PreparedSlot(t.at[k], rs[..n], k))
  }

  function PreparedSlot(s: Slot, rs: seq<Request>, key: int): Slot {
    match Ordinal(rs, key)
    case None => s
    case Some(o) => Ready(s, rs[o])
  }

  /** The lowest-numbered requested slot without an active value, from table position `j` on. */
  function FirstMissing(t: Table, rs: seq<Request>, j: nat): Option<nat>
    requires j <= |t.keys|
    decreases |t.keys| - j
  {
    if j == |t.keys| then None
    else
      match Ordinal(rs, t.keys[j])
      case Some(o) =>
        if ActiveOf(t.at[t.keys[j]]).None? then Some(rs[o].descriptor.bufferId) else FirstMissing(t, rs, j + 1)
      case None => FirstMissing(t, rs, j + 1)
  }

  // The callback's view of a transaction

  /** The banks of one request, as the callback sees them; a retained bank has no successor. */
  datatype Bank = Bank(ordinal: nat, bufferId: nat, active: Tensor, inactive: Option<Tensor>)

  /** A callback's outcome: its result, and what it left in each bank's successor. */
  datatype Staged<+T, +E> = Staged(result: Result<T, E>, written: seq<Tensor>)

  datatype TransactError<+E> = Host(error: HostError) | Stage(failure: E)

  /** Every request names its own slot, which holds an active value and a successor unless retained. */
  predicate Staffed(t: Table, rs: seq<Request>) {
    (forall i :: 0 <= i < |rs| ==>
       rs[i].slot in t.at && ActiveOf(t.at[rs[i].slot]).Some? &&
       (!rs[i].retain ==> InactiveOf(t.at[rs[i].slot]).Some?)) &&
    forall i, j :: 0 <= i < j < |rs| ==> rs[i].slot != rs[j].slot
  }

  function BankAt(t: Table, rs: seq<Request>, o: nat): Bank
    requires o < |rs| && rs[o].slot in t.at && ActiveOf(t.at[rs[o].slot]).Some?
  {
    var s := t.at[rs[o].slot];
    Bank(o, rs[o].descriptor.bufferId, ActiveOf(s).value, if rs[o].retain then None else InactiveOf(s))
  }

  /** The banks in request order. */
  function Banks(t: Table, rs: seq<Request>): (banks: seq<Bank>)
    requires Staffed(t, rs)
    ensures |banks| == |rs| && forall o :: 0 <= o < |rs| ==> banks[o] == BankAt(t, rs, o)
  {
    seq(|rs|, o requires 0 <= o < |rs| => BankAt(t, rs, o))
  }

  /** What bank `i` would publish after the callback. */
  function Successor(b: Bank, written: seq<Tensor>, i: nat): Tensor {
    if b.inactive.None? then b.active else if i < |written| then written[i] else b.inactive.value
  }

  function Successors(banks: seq<Bank>, written: seq<Tensor>): (values: seq<Tensor>)
    ensures |values| == |banks| && forall i :: 0 <= i < |banks| ==> values[i] == Successor(banks[i], written, i)
  {
    seq(|banks|, i requires 0 <= i < |banks| => Successor(banks[i], written, i))
  }

  /** The table with the values of the first `n` replaced requests in their inactive banks. */
  function Scribbled(t: Table, rs: seq<Request>, values: seq<Tensor>, n: nat): Table
    requires n <= |rs| == |values|
  {
    RawTable(t.keys, map k | k in t.at :: ScribbledSlot(t.at[k], rs[..n], values, k))
  }

  function ScribbledSlot(s: Slot, rs: seq<Request>, values: seq<Tensor>, key: int): Slot
    requires |rs| <= |values|
  {
    match Ordinal(rs, key)
    case None => s
    case Some(o) => if rs[o].retain then s else WithInactive(s, values[o])
  }

  /** The table with the banks of the first `n` replaced requests exchanged. */
  function Exchanged(t: Table, rs: seq<Request>, n: nat): Table
    requires n <= |rs|
  {
    RawTable(t.keys, map k | k in t.at :: ExchangedSlot(t.at[k], rs[..n], k))
  }

  function ExchangedSlot(s: Slot, rs: seq<Request>, key: int): Slot {
    match Ordinal(rs, key)
    case None => s
    case Some(o) => if rs[o].retain then s else Flipped(s)
  }

  datatype Transaction<+T, +E> = Transaction(result: Result<T, TransactError<E>>, table: Table)

  /** What the checks before the callback decide. */
  datatype Admission =
    | Rejected(error: HostError, table: Table)
    | Open(table: Table, banks: seq<Bank>)

  /** All requests are checked in request order, then the active values in slot order. */
  function Admit(t: Table, me: object, rs: seq<Request>): Admission {
    var n := Admitted(t, me, rs, 0);
    var p := Prepared(t, rs, n);
    if n < |rs| then Rejected(Refused(t, me, rs, n).value, p)
    else
      match FirstMissing(t, rs, 0)
      case Some(id) => Rejected(MissingValue(id), p)
      case None =>
        StaffedWhenAdmitted(t, me, rs);
        Open(p, Banks(p, rs))
  }

  /** What follows the callback: scribbles stay in the inactive banks, and only agreement publishes them. */
  function Conclude<T, E>(p: Table, rs: seq<Request>, banks: seq<Bank>, out: Staged<T, E>): Transaction<T, E>
    requires |rs| == |banks|
  {
    var values := Successors(banks, out.written);
    var after := Scribbled(p, rs, values, |rs|);
    match out.result
    case Err(e) => Transaction(Err(Stage(e)), after)
    case Ok(value) =>
      if Agreeing(rs, values) then Transaction(Ok(value), Exchanged(after, rs, |rs|))
      else Transaction(Err(Host(IncompatibleDescriptor)), after)
  }

  /** The whole transaction: a function of the table, the requests and the callback alone. */
  function Transact<T, E>(t: Table, me: object, rs: seq<Request>, stage: seq<Bank> -> Staged<T, E>): Transaction<T, E> {
    match Admit(t, me, rs)
    case Rejected(e, p) => Transaction(Err(Host(e)), p)
    case Open(p, banks) => Conclude(p, rs, banks, stage(banks))
  }

  /** Every published tensor still has the shape, dtype and size its request promises. */
  predicate Agreeing(rs: seq<Request>, values: seq<Tensor>)
    requires |rs| == |values|
  {
    forall i :: 0 <= i < |rs| ==> Matches(values[i], rs[i].descriptor)
  }

  lemma {:induction false} NoneMissing(t: Table, rs: seq<Request>, j: nat)
    requires j <= |t.keys| && FirstMissing(t, rs, j).None?
    ensures forall i :: j <= i < |t.keys| && Ordinal(rs, t.keys[i]).Some? ==> ActiveOf(t.at[t.keys[i]]).Some?
    decreases |t.keys| - j
  {
    if j < |t.keys| {
      NoneMissing(t, rs, j + 1);
    }
  }

  lemma StaffedAt(t: Table, me: object, rs: seq<Request>, i: nat)
    requires Admitted(t, me, rs, 0) == |rs| && FirstMissing(t, rs, 0).None? && i < |rs|
    ensures var p, k := Prepared(t, rs, |rs|), rs[i].slot;
            k in p.at && ActiveOf(p.at[k]).Some? && (!rs[i].retain ==> InactiveOf(p.at[k]).Some?)
  {
    hide Admitted, FirstMissing, Refused, Ordinal;
    NoneMissing(t, rs, 0);
    AdmittedOrdinal(t, me, rs, i);
    assert rs[..|rs|] == rs;
    var k :| 0 <= k < |t.keys| && t.keys[k] == rs[i].slot;
  }

  lemma StaffedWhenAdmitted(t: Table, me: object, rs: seq<Request>)
    requires Admitted(t, me, rs, 0) == |rs| && FirstMissing(t, rs, 0).None?
    ensures Staffed(Prepared(t, rs, |rs|), rs)
  {
    var p := Prepared(t, rs, |rs|);
    hide Prepared, Admitted, FirstMissing, Refused, Ordinal;
    forall i | 0 <= i < |rs|
      ensures rs[i].slot in p.at && ActiveOf(p.at[rs[i].slot]).Some?
      ensures !rs[i].retain ==> InactiveOf(p.at[rs[i].slot]).Some?
    {
      StaffedAt(t, me, rs, i);
    }
    forall i, j | 0 <= i < j < |rs|
      ensures rs[i].slot != rs[j].slot
    {
      AdmittedOrdinal(t, me, rs, j);
    }
  }

  /** An admitted request is the only one for its slot. */
  lemma AdmittedOrdinal(t: Table, me: object, rs: seq<Request>, i: nat)
    requires i < |rs| && Admitted(t, me, rs, 0) == |rs|
    ensures rs[i].slot in t.at && Unfit(t.at[rs[i].slot], rs[i]).None?
    ensures Ordinal(rs, rs[i].slot) == Some(i)
    ensures forall j :: 0 <= j < i ==> rs[j].slot != rs[i].slot
  {
    assert Refused(t, me, rs, i).None?;
    assert forall j :: 0 <= j < i ==> rs[..i][j] == rs[j];
  }

  // What a transaction can change

  /** What a reader of the pool can tell about a slot. */
  datatype Visible = Visible(generation: nat, descriptor: Option<Descriptor>, leased: bool, active: Option<Tensor>)

  function See(s: Slot): Visible {
    Visible(s.generation, s.descriptor, s.leased, ActiveOf(s))
  }

  ghost predicate SameView(a: Table, b: Table) {
    a.keys == b.keys && forall k :: k in a.at ==> See(a.at[k]) == See(b.at[k])
  }

  lemma PreparedView(t: Table, rs: seq<Request>, n: nat)
    requires n <= |rs|
    ensures SameView(t, Prepared(t, rs, n))
  {
  }

  lemma ScribbledView(t: Table, rs: seq<Request>, values: seq<Tensor>, n: nat)
    requires n <= |rs| == |values|
    ensures SameView(t, Scribbled(t, rs, values, n))
  {
  }

  lemma AdmitView(t: Table, me: object, rs: seq<Request>)
    ensures SameView(t, Admit(t, me, rs).table)
    ensures Admit(t, me, rs).Open? ==> |Admit(t, me, rs).banks| == |rs|
  {
    hide Admitted, FirstMissing, Prepared, Banks, SameView;
    PreparedView(t, rs, Admitted(t, me, rs, 0));
  }

  lemma ConcludeView<T, E>(p: Table, rs: seq<Request>, banks: seq<Bank>, out: Staged<T, E>)
    requires |rs| == |banks|
    ensures Conclude(p, rs, banks, out).result.Err? ==> SameView(p, Conclude(p, rs, banks, out).table)
  {
    hide Scribbled, Exchanged, Agreeing, SameView;
    ScribbledView(p, rs, Successors(banks, out.written), |rs|);
  }

  lemma SameViewAfter(a: Table, b: Table, c: Table)
    requires SameView(a, b) && SameView(b, c)
    ensures SameView(a, c)
  {
  }

  /** A failed transaction is invisible, whatever its callback scribbled. */
  lemma FailureIsInvisible<T, E>(t: Table, me: object, rs: seq<Request>, stage: seq<Bank> -> Staged<T, E>)
    requires Transact(t, me, rs, stage).result.Err?
    ensures SameView(t, Transact(t, me, rs, stage).table)
  {
    hide Admit, Conclude, SameView;
    AdmitView(t, me, rs);
    match Admit(t, me, rs)
    case Rejected(_, _) =>
    case Open(p, banks) =>
      ConcludeView(p, rs, banks, stage(banks));
      SameViewAfter(t, p, Conclude(p, rs, banks, stage(banks)).table);
  }

  /** What publishing tensor `v` through request `r` makes of a slot. */
  ghost predicate Published(before: Slot, after: Slot, r: Request, v: Tensor) {
    if r.retain then after == before
    else See(after) == See(before).(active := Some(v)) && InactiveOf(after) == ActiveOf(before) &&
         after.views == before.views && after.window == before.window && after.capacity == before.capacity
  }

  ghost predicate RequestPublished(t: Table, after: Table, r: Request, v: Tensor) {
    r.slot in t.at && r.slot in after.at && Matches(v, r.descriptor) && Published(t.at[r.slot], after.at[r.slot], r, v)
  }

  /** Every request's successor is published, and slots nobody requested are untouched. */
  ghost predicate AllPublished(t: Table, after: Table, rs: seq<Request>, values: seq<Tensor>) {
    after.keys == t.keys && |values| == |rs| &&
    (forall i :: 0 <= i < |rs| ==> RequestPublished(t, after, rs[i], values[i])) &&
    forall k :: k in t.at && Ordinal(rs, k).None? ==> k in after.at && after.at[k] == t.at[k]
  }

  lemma SlotPublished(s: Slot, r: Request, v: Tensor)
    ensures Published(s, if r.retain then Ready(s, r) else Flipped(WithInactive(Ready(s, r), v)), r, v)
  {
  }

  /** The final slot of an admitted request, in closed form. */
  lemma {:induction false} PublishedAt(t: Table, rs: seq<Request>, values: seq<Tensor>, i: nat)
    requires i < |rs| == |values| && rs[i].slot in t.at && Ordinal(rs, rs[i].slot) == Some(i)
    ensures var k, after := rs[i].slot, Exchanged(Scribbled(Prepared(t, rs, |rs|), rs, values, |rs|), rs, |rs|);
            k in after.at &&
            after.at[k] == if rs[i].retain then Ready(t.at[k], rs[i])
                           else Flipped(WithInactive(Ready(t.at[k], rs[i]), values[i]))
  {
    hide Ordinal, Ready, Flipped, WithInactive;
    assert rs[..|rs|] == rs;
  }

  lemma UntouchedAt(t: Table, rs: seq<Request>, values: seq<Tensor>, k: int)
    requires |rs| == |values| && k in t.at && Ordinal(rs, k).None?
    ensures var after := Exchanged(Scribbled(Prepared(t, rs, |rs|), rs, values, |rs|), rs, |rs|);
            k in after.at && after.at[k] == t.at[k]
  {
    hide Ordinal;
    assert rs[..|rs|] == rs;
  }

  lemma AdmitOpens(t: Table, me: object, rs: seq<Request>)
    requires Admit(t, me, rs).Open?
    ensures var a := Admit(t, me, rs);
            a.table == Prepared(t, rs, |rs|) && |a.banks| == |rs| && Staffed(a.table, rs) &&
              a.banks == Banks(a.table, rs)
    ensures forall i :: 0 <= i < |rs| ==> Ordinal(rs, rs[i].slot) == Some(i) && rs[i].slot in t.at
  {
    hide Ordinal, FirstMissing, Banks, Prepared, Unfit;
    StaffedWhenAdmitted(t, me, rs);
    forall i | 0 <= i < |rs|
      ensures Ordinal(rs, rs[i].slot) == Some(i) && rs[i].slot in t.at
    {
      AdmittedOrdinal(t, me, rs, i);
    }
  }

  lemma ClosedPublishes(t: Table, rs: seq<Request>, values: seq<Tensor>)
    requires |rs| == |values| && Agreeing(rs, values)
    requires forall i :: 0 <= i < |rs| ==> Ordinal(rs, rs[i].slot) == Some(i) && rs[i].slot in t.at
    ensures AllPublished(t, Exchanged(Scribbled(Prepared(t, rs, |rs|), rs, values, |rs|), rs, |rs|), rs, values)
  {
    hide Ordinal, Scribbled, Exchanged, Prepared, Published, Matches, Ready, Flipped, WithInactive;
    var after := Exchanged(Scribbled(Prepared(t, rs, |rs|), rs, values, |rs|), rs, |rs|);
    SameKeysThroughout(t, rs, values);
    forall i | 0 <= i < |rs|
      ensures RequestPublished(t, after, rs[i], values[i])
    {
      PublishedAt(t, rs, values, i);
      SlotPublished(t.at[rs[i].slot], rs[i], values[i]);
    }
    forall k | k in t.at && Ordinal(rs, k).None?
      ensures k in after.at && after.at[k] == t.at[k]
    {
      UntouchedAt(t, rs, values, k);
    }
  }

  lemma ConcludePublishes<T, E>(t: Table, me: object, rs: seq<Request>, out: Staged<T, E>)
    requires Admit(t, me, rs).Open?
    ensures var p, banks := Admit(t, me, rs).table, Admit(t, me, rs).banks;
            |rs| == |banks| &&
            (Conclude(p, rs, banks, out).result.Ok? ==>
               AllPublished(t, Conclude(p, rs, banks, out).table, rs, Successors(banks, out.written)))
  {
    var p, banks := Admit(t, me, rs).table, Admit(t, me, rs).banks;
    hide Ordinal, Admit, Scribbled, Exchanged, Prepared, AllPublished, Agreeing, Banks, Staffed;
    AdmitOpens(t, me, rs);
    if Conclude(p, rs, banks, out).result.Ok? {
      ClosedPublishes(t, rs, Successors(banks, out.written));
    }
  }

  lemma SameKeysThroughout(t: Table, rs: seq<Request>, values: seq<Tensor>)
    requires |rs| == |values|
    ensures Exchanged(Scribbled(Prepared(t, rs, |rs|), rs, values, |rs|), rs, |rs|).keys == t.keys
  {
  }

  /** A successful transaction publishes every replaced request's successor and nothing else. */
  lemma SuccessPublishes<T, E>(t: Table, me: object, rs: seq<Request>, stage: seq<Bank> -> Staged<T, E>)
    requires Transact(t, me, rs, stage).result.Ok?
    ensures var a := Admit(t, me, rs);
            a.Open? &&
            AllPublished(t, Transact(t, me, rs, stage).table, rs, Successors(a.banks, stage(a.banks).written))
  {
    hide Admit, Conclude, AllPublished;
    match Admit(t, me, rs)
    case Rejected(_, _) =>
    case Open(p, banks) => ConcludePublishes(t, me, rs, stage(banks));
  }

  // Retrying

  /** Two bank lists that differ at most in what their successors hold. */
  ghost predicate AlikeBanks(a: seq<Bank>, b: seq<Bank>) {
    |a| == |b| && forall i :: 0 <= i < |a| ==> AlikeBank(a[i], b[i])
  }

  ghost predicate AlikeBank(a: Bank, b: Bank) {
    a.ordinal == b.ordinal && a.bufferId == b.bufferId && a.active == b.active &&
    (a.inactive.Some? <==> b.inactive.Some?)
  }

  /** A callback that fills every successor and never depends on what was in one. */
  ghost predicate Overwrites<T(!new), E(!new)>(stage: seq<Bank> -> Staged<T, E>) {
    (forall a: seq<Bank> :: |stage(a).written| == |a|) &&
    forall a: seq<Bank>, b: seq<Bank> :: AlikeBanks(a, b) ==> stage(a) == stage(b)
  }

  /** Tables that differ at most in the inactive banks of slots that some request replaces. */
  ghost predicate AlikeTables(a: Table, b: Table, rs: seq<Request>) {
    a.keys == b.keys && forall k :: k in a.at ==> k in b.at && AlikeAt(a.at[k], b.at[k], rs, k)
  }

  ghost predicate AlikeAt(a: Slot, b: Slot, rs: seq<Request>, k: int) {
    AlikeSlot(a, b, Ordinal(rs, k).Some? && !rs[Ordinal(rs, k).value].retain)
  }

  /** Equal up to the inactive bank, and equal outright when that bank is not to be replaced. */
  ghost predicate AlikeSlot(a: Slot, b: Slot, replaced: bool) {
    ActiveOf(a) == ActiveOf(b) && a.(values := b.values) == b && (!replaced ==> a == b)
  }

  lemma OrdinalPrefix(rs: seq<Request>, n: nat, k: int)
    requires n <= |rs|
    ensures Ordinal(rs[..n], k).Some? ==> Ordinal(rs, k) == Ordinal(rs[..n], k)
  {
    if Ordinal(rs[..n], k).Some? {
      var o := Ordinal(rs[..n], k).value;
      assert rs[..n][o] == rs[o];
      assert forall j :: 0 <= j < o ==> rs[..n][j] == rs[j];
    }
  }

  lemma PreparedAlike(t: Table, rs: seq<Request>, n: nat)
    requires n <= |rs|
    ensures AlikeTables(t, Prepared(t, rs, n), rs)
  {
    hide Ordinal, ZeroTensor, Matches;
    forall k | k in t.at
      ensures AlikeAt(t.at[k], Prepared(t, rs, n).at[k], rs, k)
    {
      OrdinalPrefix(rs, n, k);
    }
  }

  lemma ScribbledAlike(t: Table, rs: seq<Request>, values: seq<Tensor>)
    requires |rs| == |values|
    ensures AlikeTables(t, Scribbled(t, rs, values, |rs|), rs)
  {
    hide Ordinal;
    assert rs[..|rs|] == rs;
  }

  lemma AlikeAfter(a: Table, b: Table, c: Table, rs: seq<Request>)
    requires AlikeTables(a, b, rs) && AlikeTables(b, c, rs)
    ensures AlikeTables(a, c, rs)
  {
    hide Ordinal;
    forall k | k in a.at
      ensures k in c.at && AlikeAt(a.at[k], c.at[k], rs, k)
    {
      assert AlikeAt(a.at[k], b.at[k], rs, k) && AlikeAt(b.at[k], c.at[k], rs, k);
    }
  }

  lemma ConcludeAlike<T, E>(p: Table, rs: seq<Request>, banks: seq<Bank>, out: Staged<T, E>)
    requires |rs| == |banks| && Conclude(p, rs, banks, out).result.Err?
    ensures AlikeTables(p, Conclude(p, rs, banks, out).table, rs)
  {
    hide Scribbled, Exchanged, Agreeing, AlikeTables;
    ScribbledAlike(p, rs, Successors(banks, out.written));
  }

  /** A failed transaction leaves a table that differs only where a retry overwrites. */
  lemma FailureAlike<T, E>(t: Table, me: object, rs: seq<Request>, stage: seq<Bank> -> Staged<T, E>)
    requires Transact(t, me, rs, stage).result.Err?
    ensures AlikeTables(t, Transact(t, me, rs, stage).table, rs)
  {
    hide Conclude, AlikeTables, Prepared, Admitted, FirstMissing, Banks, Staffed;
    AdmitView(t, me, rs);
    PreparedAlike(t, rs, Admitted(t, me, rs, 0));
    match Admit(t, me, rs)
    case Rejected(_, _) =>
    case Open(p, banks) =>
      ConcludeAlike(p, rs, banks, stage(banks));
      AlikeAfter(t, p, Conclude(p, rs, banks, stage(banks)).table, rs);
  }

  /** No tensor matches a descriptor whose shape has no zero tensor. */
  lemma MatchHasZero(v: Tensor, d: Descriptor)
    requires Matches(v, d)
    ensures ZeroTensor(d).Some?
  {
  }

  lemma UnfitAlike(a: Slot, b: Slot, r: Request)
    requires AlikeSlot(a, b, !r.retain)
    ensures Unfit(a, r) == Unfit(b, r)
    ensures AlikeSlot(Ready(a, r), Ready(b, r), !r.retain)
    ensures Unfit(a, r).None? && !r.retain ==> InactiveOf(Ready(a, r)).Some? && InactiveOf(Ready(b, r)).Some?
  {
    hide ZeroTensor, Matches;
    if InactiveOf(a).Some? && Matches(InactiveOf(a).value, r.descriptor) {
      MatchHasZero(InactiveOf(a).value, r.descriptor);
    }
    if InactiveOf(b).Some? && Matches(InactiveOf(b).value, r.descriptor) {
      MatchHasZero(InactiveOf(b).value, r.descriptor);
    }
  }

  lemma RefusedAlike(a: Table, b: Table, me: object, rs: seq<Request>, k: nat)
    requires AlikeTables(a, b, rs) && k < |rs|
    ensures Refused(a, me, rs, k) == Refused(b, me, rs, k)
  {
    hide Ordinal, Unfit;
    var key := rs[k].slot;
    assert key in a.at <==> key in b.at by {
      assert key in a.at <==> key in a.keys;
      assert key in b.at <==> key in b.keys;
    }
    if key in a.at && Ordinal(rs[..k], key).None? {
      assert AlikeAt(a.at[key], b.at[key], rs, key);
      assert forall j :: 0 <= j < k ==> rs[..k][j] == rs[j];
      assert Ordinal(rs, key) == Some(k);
      UnfitAlike(a.at[key], b.at[key], rs[k]);
    }
  }

  lemma {:induction false} AdmittedAlike(a: Table, b: Table, me: object, rs: seq<Request>, k: nat)
    requires AlikeTables(a, b, rs) && k <= |rs|
    ensures Admitted(a, me, rs, k) == Admitted(b, me, rs, k)
    decreases |rs| - k
  {
    hide AlikeTables, Refused;
    if k < |rs| {
      RefusedAlike(a, b, me, rs, k);
      AdmittedAlike(a, b, me, rs, k + 1);
    }
  }

  lemma {:induction false} FirstMissingAlike(a: Table, b: Table, rs: seq<Request>, j: nat)
    requires AlikeTables(a, b, rs) && j <= |a.keys|
    ensures FirstMissing(a, rs, j) == FirstMissing(b, rs, j)
    decreases |a.keys| - j
  {
    hide Ordinal;
    if j < |a.keys| {
      assert a.keys[j] in a.at;
      assert AlikeAt(a.at[a.keys[j]], b.at[a.keys[j]], rs, a.keys[j]);
      FirstMissingAlike(a, b, rs, j + 1);
    }
  }

  /** Alike tables admit the same requests and show the callback alike banks. */
  lemma AdmitAlike(a: Table, b: Table, me: object, rs: seq<Request>)
    requires AlikeTables(a, b, rs)
    ensures var p, q := Admit(a, me, rs), Admit(b, me, rs);
            if p.Rejected? then q.Rejected? && q.error == p.error
            else q.Open? && AlikeBanks(p.banks, q.banks)
  {
    hide AlikeTables, Admitted, FirstMissing, Refused, Prepared, Banks, Staffed;
    AdmittedAlike(a, b, me, rs, 0);
    FirstMissingAlike(a, b, rs, 0);
    if Admit(a, me, rs).Rejected? {
      if Admitted(a, me, rs, 0) < |rs| {
        RefusedAlike(a, b, me, rs, Admitted(a, me, rs, 0));
      }
    } else {
      BanksAlike(a, b, me, rs);
    }
  }

  lemma BanksAlike(a: Table, b: Table, me: object, rs: seq<Request>)
    requires AlikeTables(a, b, rs) && Admit(a, me, rs).Open? && Admit(b, me, rs).Open?
    ensures AlikeBanks(Admit(a, me, rs).banks, Admit(b, me, rs).banks)
  {
    hide Admit, Ordinal, Unfit, Ready, Banks;
    AdmitOpens(a, me, rs);
    AdmitOpens(b, me, rs);
    var p, q := Admit(a, me, rs), Admit(b, me, rs);
    assert rs[..|rs|] == rs;
    forall i | 0 <= i < |rs|
      ensures AlikeBank(p.banks[i], q.banks[i])
    {
      var key := rs[i].slot;
      assert AlikeAt(a.at[key], b.at[key], rs, key);
      UnfitAlike(a.at[key], b.at[key], rs[i]);
    }
  }

  lemma OverwriteSlot(a: Slot, b: Slot, rs: seq<Request>, values: seq<Tensor>, k: int)
    requires AlikeAt(a, b, rs, k) && |rs| == |values|
    ensures ScribbledSlot(a, rs, values, k) == ScribbledSlot(b, rs, values, k)
  {
    hide Ordinal;
  }

  /** Overwriting the replaced banks of alike tables makes them equal. */
  lemma OverwriteEqual(a: Table, b: Table, rs: seq<Request>, values: seq<Tensor>)
    requires AlikeTables(a, b, rs) && |rs| == |values|
    ensures Scribbled(a, rs, values, |rs|) == Scribbled(b, rs, values, |rs|)
  {
    hide Ordinal, AlikeAt, ScribbledSlot;
    assert rs[..|rs|] == rs;
    forall k | k in a.at
      ensures k in b.at && ScribbledSlot(a.at[k], rs, values, k) == ScribbledSlot(b.at[k], rs, values, k)
    {
      OverwriteSlot(a.at[k], b.at[k], rs, values, k);
    }
    var p, q := Scribbled(a, rs, values, |rs|), Scribbled(b, rs, values, |rs|);
    assert forall k :: k in q.at ==> k in b.keys && k in p.at;
    assert p.at == q.at;
  }

  lemma PreparedBothAlike(a: Table, b: Table, rs: seq<Request>)
    requires AlikeTables(a, b, rs)
    ensures AlikeTables(Prepared(a, rs, |rs|), Prepared(b, rs, |rs|), rs)
  {
    hide Ordinal, Ready, Unfit;
    assert rs[..|rs|] == rs;
    forall k | k in a.at
      ensures AlikeAt(Prepared(a, rs, |rs|).at[k], Prepared(b, rs, |rs|).at[k], rs, k)
    {
      assert AlikeAt(a.at[k], b.at[k], rs, k);
      if Ordinal(rs, k).Some? {
        UnfitAlike(a.at[k], b.at[k], rs[Ordinal(rs, k).value]);
      }
    }
  }

  lemma ConcludeEqual<T, E>(p: Table, q: Table, rs: seq<Request>, x: seq<Bank>, y: seq<Bank>, out: Staged<T, E>)
    requires AlikeTables(p, q, rs) && AlikeBanks(x, y) && |x| == |y| == |rs| == |out.written|
    ensures Conclude(p, rs, x, out) == Conclude(q, rs, y, out)
  {
    hide Scribbled, Exchanged, AlikeTables, Matches;
    forall i | 0 <= i < |rs|
      ensures Successor(x[i], out.written, i) == Successor(y[i], out.written, i)
    {
      assert AlikeBank(x[i], y[i]);
    }
    assert Successors(x, out.written) == Successors(y, out.written);
    OverwriteEqual(p, q, rs, Successors(x, out.written));
  }

  /** Retrying after a failure, with a callback that fills every successor, ends as if the failure never happened. */
  lemma RetryIsFresh<S, F, T(!new), E(!new)>(t: Table, me: object, rs: seq<Request>, failing: seq<Bank> -> Staged<S, F>,
                                             stage: seq<Bank> -> Staged<T, E>)
    requires Transact(t, me, rs, failing).result.Err? && Overwrites(stage)
    ensures var again, clean := Transact(Transact(t, me, rs, failing).table, me, rs, stage), Transact(t, me, rs, stage);
            again.result == clean.result && (clean.result.Ok? ==> again.table == clean.table)
  {
    hide Conclude, Admit, AlikeTables, AlikeBanks, Prepared;
    var u := Transact(t, me, rs, failing).table;
    FailureAlike(t, me, rs, failing);
    AdmitAlike(t, u, me, rs);
    if Admit(t, me, rs).Open? {
      AdmitOpens(t, me, rs);
      AdmitOpens(u, me, rs);
      PreparedBothAlike(t, u, rs);
      var p, q := Admit(t, me, rs), Admit(u, me, rs);
      ConcludeEqual(p.table, q.table, rs, p.banks, q.banks, stage(p.banks));
    }
  }

  // One request at a time

  lemma OrdinalNext(rs: seq<Request>, i: nat, k: int)
    requires i < |rs|
    ensures Ordinal(rs[..i + 1], k) ==
            if Ordinal(rs[..i], k).Some? then Ordinal(rs[..i], k)
            else if rs[i].slot == k then Some(i) else None
  {
    assert rs[..i + 1][..i] == rs[..i];
  }

  /** Readying request `i` after its predecessors. */
  lemma PreparedNext(t: Table, rs: seq<Request>, i: nat)
    requires i < |rs| && rs[i].slot in t.at && Ordinal(rs[..i], rs[i].slot).None?
    ensures var p, k := Prepared(t, rs, i), rs[i].slot;
            k in p.at && p.at[k] == t.at[k] && Prepared(t, rs, i + 1) == Put(p, k, Ready(t.at[k], rs[i]))
  {
    hide Ordinal, Ready, PreparedSlot;
    var p, k := Prepared(t, rs, i), rs[i].slot;
    var q, u := Prepared(t, rs, i + 1), Put(p, k, Ready(t.at[k], rs[i]));
    PreparedSlotNext(t.at[k], rs, i, k);
    forall j | j in t.at
      ensures q.at[j] == u.at[j]
    {
      PreparedSlotNext(t.at[j], rs, i, j);
    }
    assert q.at == u.at;
  }

  lemma PreparedSlotNext(s: Slot, rs: seq<Request>, i: nat, k: int)
    requires i < |rs|
    ensures Ordinal(rs[..i], k).None? ==> PreparedSlot(s, rs[..i], k) == s
    ensures PreparedSlot(s, rs[..i + 1], k) ==
            if Ordinal(rs[..i], k).None? && rs[i].slot == k then Ready(s, rs[i]) else PreparedSlot(s, rs[..i], k)
  {
    hide Ordinal, Ready;
    OrdinalNext(rs, i, k);
  }

  lemma ScribbledSlotNext(s: Slot, rs: seq<Request>, values: seq<Tensor>, i: nat, k: int)
    requires i < |rs| == |values|
    ensures Ordinal(rs[..i], k).None? ==> ScribbledSlot(s, rs[..i], values, k) == s
    ensures ScribbledSlot(s, rs[..i + 1], values, k) ==
            if Ordinal(rs[..i], k).None? && rs[i].slot == k
              then (if rs[i].retain then s else WithInactive(s, values[i]))
            else ScribbledSlot(s, rs[..i], values, k)
  {
    hide Ordinal, WithInactive;
    OrdinalNext(rs, i, k);
  }

  /** Filling the inactive bank of request `i` after its predecessors. */
  lemma ScribbledNext(t: Table, rs: seq<Request>, values: seq<Tensor>, i: nat)
    requires i < |rs| == |values| && rs[i].slot in t.at && Ordinal(rs[..i], rs[i].slot).None?
    ensures var p, k := Scribbled(t, rs, values, i), rs[i].slot;
            k in p.at && p.at[k] == t.at[k] &&
            Scribbled(t, rs, values, i + 1) ==
              Put(p, k, if rs[i].retain then t.at[k] else WithInactive(t.at[k], values[i]))
  {
    hide Ordinal, WithInactive, ScribbledSlot;
    var p, k := Scribbled(t, rs, values, i), rs[i].slot;
    var q, u := Scribbled(t, rs, values, i + 1),
      Put(p, k, if rs[i].retain then t.at[k] else WithInactive(t.at[k], values[i]));
    ScribbledSlotNext(t.at[k], rs, values, i, k);
    forall j | j in t.at
      ensures q.at[j] == u.at[j]
    {
      ScribbledSlotNext(t.at[j], rs, values, i, j);
    }
    assert q.at == u.at;
  }

  lemma ExchangedSlotNext(s: Slot, rs: seq<Request>, i: nat, k: int)
    requires i < |rs|
    ensures Ordinal(rs[..i], k).None? ==> ExchangedSlot(s, rs[..i], k) == s
    ensures ExchangedSlot(s, rs[..i + 1], k) ==
            if Ordinal(rs[..i], k).None? && rs[i].slot == k then (if rs[i].retain then s else Flipped(s))
            else ExchangedSlot(s, rs[..i], k)
  {
    hide Ordinal, Flipped;
    OrdinalNext(rs, i, k);
  }

  /** Exchanging the banks of request `i` after its predecessors. */
  lemma ExchangedNext(t: Table, rs: seq<Request>, i: nat)
    requires i < |rs| && rs[i].slot in t.at && Ordinal(rs[..i], rs[i].slot).None?
    ensures var p, k := Exchanged(t, rs, i), rs[i].slot;
            k in p.at && p.at[k] == t.at[k] &&
            Exchanged(t, rs, i + 1) == Put(p, k, if rs[i].retain then t.at[k] else Flipped(t.at[k]))
  {
    hide Ordinal, Flipped, ExchangedSlot;
    var p, k := Exchanged(t, rs, i), rs[i].slot;
    var q, u := Exchanged(t, rs, i + 1), Put(p, k, if rs[i].retain then t.at[k] else Flipped(t.at[k]));
    ExchangedSlotNext(t.at[k], rs, i, k);
    forall j | j in t.at
      ensures q.at[j] == u.at[j]
    {
      ExchangedSlotNext(t.at[j], rs, i, j);
    }
    assert q.at == u.at;
  }

  lemma NothingYet(t: Table, rs: seq<Request>, values: seq<Tensor>)
    ensures Prepared(t, rs, 0) == t && Exchanged(t, rs, 0) == t
    ensures |values| == |rs| ==> Scribbled(t, rs, values, 0) == t
  {
    assert Prepared(t, rs, 0).at == t.at;
    assert Exchanged(t, rs, 0).at == t.at;
    assert |values| == |rs| ==> Scribbled(t, rs, values, 0).at == t.at;
  }

  lemma AdmittedIs(t: Table, me: object, rs: seq<Request>, n: nat)
    requires n <= |rs| && forall i :: 0 <= i < n ==> Refused(t, me, rs, i).None?
    requires n < |rs| ==> Refused(t, me, rs, n).Some?
    ensures Admitted(t, me, rs, 0) == n
  {
  }

  /** The requests name every slot of the table, in table order. */
  predicate FullFrontier(t: Table, rs: seq<Request>) {
    |rs| == |t.keys| && (forall i :: 0 <= i < |rs| ==> rs[i].descriptor.bytes != 0) &&
    forall i :: 0 <= i < |rs| ==> rs[i].slot == t.keys[i]
  }

  lemma FrontierOrdinal(t: Table, rs: seq<Request>, i: nat)
    requires FullFrontier(t, rs) && i < |rs|
    ensures Ordinal(rs[..i], rs[i].slot).None? && Ordinal(rs, rs[i].slot) == Some(i) && rs[i].slot in t.at
  {
    hide Ordinal;
    assert t.keys[i] in t.keys;
    assert forall j :: 0 <= j < i ==> rs[..i][j] == rs[j];
  }

  // Collecting the banks

  /** The banks of the requested slots among the first `j` of the table, in slot order. */
  ghost predicate Collected(t: Table, rs: seq<Request>, j: nat, banks: seq<Bank>)
    requires j <= |t.keys|
  {
    (forall i :: 0 <= i < |banks| ==> IsBank(t, rs, banks[i])) &&
    (forall i :: 0 <= i < |banks| ==> exists m :: 0 <= m < j && t.keys[m] == rs[banks[i].ordinal].slot) &&
    (forall h, i :: 0 <= h < i < |banks| ==> rs[banks[h].ordinal].slot < rs[banks[i].ordinal].slot) &&
    forall m, o :: 0 <= m < j && Ordinal(rs, t.keys[m]) == Some(o) ==> HasOrdinal(banks, o)
  }

  ghost predicate IsBank(t: Table, rs: seq<Request>, b: Bank) {
    b.ordinal < |rs| && rs[b.ordinal].slot in t.at && ActiveOf(t.at[rs[b.ordinal].slot]).Some? &&
      b == BankAt(t, rs, b.ordinal)
  }

  ghost predicate HasOrdinal(banks: seq<Bank>, o: nat) {
    exists i :: 0 <= i < |banks| && banks[i].ordinal == o
  }

  lemma {:induction false} CollectedNext(t: Table, rs: seq<Request>, j: nat, banks: seq<Bank>, o: nat)
    requires j < |t.keys| && Collected(t, rs, j, banks) && Ordinal(rs, t.keys[j]) == Some(o)
    requires ActiveOf(t.at[t.keys[j]]).Some?
    ensures Collected(t, rs, j + 1, banks + [BankAt(t, rs, o)])
  {
    hide Ordinal, BankAt, IsBank;
    var more := banks + [BankAt(t, rs, o)];
    OrdinalOfBank(t, rs, o);
    assert IsBank(t, rs, BankAt(t, rs, o)) by {
      NewBank(t, rs, o);
    }
    forall m, n | 0 <= m < j + 1 && Ordinal(rs, t.keys[m]) == Some(n)
      ensures HasOrdinal(more, n)
    {
      if m == j {
        assert more[|banks|].ordinal == n;
      } else {
        var i :| 0 <= i < |banks| && banks[i].ordinal == n;
        assert more[i].ordinal == n;
      }
    }
  }

  lemma NewBank(t: Table, rs: seq<Request>, o: nat)
    requires o < |rs| && rs[o].slot in t.at && ActiveOf(t.at[rs[o].slot]).Some?
    ensures IsBank(t, rs, BankAt(t, rs, o))
  {
  }

  lemma OrdinalOfBank(t: Table, rs: seq<Request>, o: nat)
    requires o < |rs| && rs[o].slot in t.at && ActiveOf(t.at[rs[o].slot]).Some?
    ensures BankAt(t, rs, o).ordinal == o
  {
  }

  lemma CollectedSkip(t: Table, rs: seq<Request>, j: nat, banks: seq<Bank>)
    requires j < |t.keys| && Collected(t, rs, j, banks) && Ordinal(rs, t.keys[j]).None?
    ensures Collected(t, rs, j + 1, banks)
  {
    hide Ordinal, IsBank, HasOrdinal;
  }

  /** Strictly ascending by request ordinal. */
  ghost predicate InOrder(banks: seq<Bank>) {
    forall h, i :: 0 <= h < i < |banks| ==> banks[h].ordinal < banks[i].ordinal
  }

  /** The last ordinal is the largest, and only the last bank has it. */
  lemma LastOrdinal(banks: seq<Bank>, p: nat)
    requires InOrder(banks) && p < |banks|
    ensures banks[p].ordinal <= banks[|banks| - 1].ordinal
    ensures banks[p].ordinal == banks[|banks| - 1].ordinal ==> p == |banks| - 1
  {
  }

  lemma {:induction false} InOrderCover(banks: seq<Bank>, n: nat)
    requires InOrder(banks) && forall i :: 0 <= i < |banks| ==> banks[i].ordinal < n
    requires forall o :: 0 <= o < n ==> HasOrdinal(banks, o)
    ensures |banks| == n && forall i :: 0 <= i < n ==> banks[i].ordinal == i
  {
    assert |banks| > 0 ==> banks[0].ordinal < n;
    if n > 0 {
      assert HasOrdinal(banks, n - 1);
      var last := |banks| - 1;
      var p :| 0 <= p < |banks| && banks[p].ordinal == n - 1;
      LastOrdinal(banks, p);
      var rest := banks[..last];
      assert forall i :: 0 <= i < last ==> rest[i].ordinal < banks[last].ordinal;
      forall o | 0 <= o < n - 1
        ensures HasOrdinal(rest, o)
      {
        assert HasOrdinal(banks, o);
        var i :| 0 <= i < |banks| && banks[i].ordinal == o;
        assert rest[i].ordinal == o;
      }
      InOrderCover(rest, n - 1);
    }
  }

  /** All banks, in request order, are the transaction's banks. */
  lemma CollectedAll(t: Table, rs: seq<Request>, banks: seq<Bank>)
    requires Staffed(t, rs) && InOrder(banks)
    requires forall i :: 0 <= i < |banks| ==> IsBank(t, rs, banks[i])
    requires forall o :: 0 <= o < |rs| ==> HasOrdinal(banks, o)
    ensures banks == Banks(t, rs)
  {
    InOrderCover(banks, |rs|);
  }

  /** Sorting by request ordinal. */
  function SortedBanks(banks: seq<Bank>): (r: seq<Bank>)
    ensures |r| == |banks| && forall b :: b in r <==> b in banks
  {
    if |banks| == 0 then []
    else InsertBank(SortedBanks(banks[..|banks| - 1]), banks[|banks| - 1])
  }

  function InsertBank(sorted: seq<Bank>, b: Bank): (r: seq<Bank>)
    ensures |r| == |sorted| + 1 && forall x :: x in r <==> x == b || x in sorted
  {
    if |sorted| == 0 then [b]
    else
      var n := |sorted| - 1;
      if sorted[n].ordinal <= b.ordinal then sorted + [b]
      else
        assert sorted == sorted[..n] + [sorted[n]];
        InsertBank(sorted[..n], b) + [sorted[n]]
  }

  lemma {:induction false} InsertInOrder(sorted: seq<Bank>, b: Bank)
    requires InOrder(sorted) && forall x :: x in sorted ==> x.ordinal != b.ordinal
    ensures InOrder(InsertBank(sorted, b))
  {
    if |sorted| > 0 {
      var n := |sorted| - 1;
      if sorted[n].ordinal > b.ordinal {
        InsertInOrder(sorted[..n], b);
        var r := InsertBank(sorted[..n], b);
        forall i | 0 <= i < |r|
          ensures r[i].ordinal < sorted[n].ordinal
        {
          assert r[i] in r;
        }
      }
    }
  }

  lemma {:induction false} SortInOrder(banks: seq<Bank>)
    requires forall h, i :: 0 <= h < i < |banks| ==> banks[h].ordinal != banks[i].ordinal
    ensures InOrder(SortedBanks(banks))
  {
    if |banks| > 0 {
      SortInOrder(banks[..|banks| - 1]);
      InsertInOrder(SortedBanks(banks[..|banks| - 1]), banks[|banks| - 1]);
    }
  }

  lemma SortKeepsOrdinals(banks: seq<Bank>, o: nat)
    requires HasOrdinal(banks, o)
    ensures HasOrdinal(SortedBanks(banks), o)
  {
    var i :| 0 <= i < |banks| && banks[i].ordinal == o;
    assert banks[i] in SortedBanks(banks);
  }

  /** Sorting the collected banks of every requested slot gives the transaction's banks. */
  lemma CollectedSorted(t: Table, rs: seq<Request>, banks: seq<Bank>)
    requires Staffed(t, rs) && Collected(t, rs, |t.keys|, banks)
    requires forall i :: 0 <= i < |rs| ==> Ordinal(rs, rs[i].slot) == Some(i)
    ensures SortedBanks(banks) == Banks(t, rs) && |banks| == |rs|
  {
    hide Ordinal, BankAt, SortedBanks, Banks;
    var sorted := SortedBanks(banks);
    SortInOrder(banks);
    forall o | 0 <= o < |rs|
      ensures HasOrdinal(sorted, o)
    {
      assert rs[o].slot in t.keys;
      var m :| 0 <= m < |t.keys| && t.keys[m] == rs[o].slot;
      assert HasOrdinal(banks, o);
      SortKeepsOrdinals(banks, o);
    }
    forall i | 0 <= i < |sorted|
      ensures IsBank(t, rs, sorted[i])
    {
      assert sorted[i] in sorted;
    }
    CollectedAll(t, rs, sorted);
  }

  /** In table order nothing needs sorting. */
  lemma CollectedFrontier(t: Table, rs: seq<Request>, banks: seq<Bank>)
    requires Staffed(t, rs) && FullFrontier(t, rs) && |banks| == |rs|
    requires forall i :: 0 <= i < |banks| ==> IsBank(t, rs, banks[i]) && banks[i].ordinal == i
    ensures banks == Banks(t, rs)
  {
  }
}
