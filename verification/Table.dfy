/** The generational handle table as a value: every operation, and the measures over its slots. */
module Tables {
  import opened Prelude
  import opened Handles

  const MAX_SLOTS := 0x1_0000_0000

  datatype Slot<T> = Slot(generation: u32, kind: u8, value: Option<T>, retired: bool)

  datatype RawTable<T> = RawTable(slots: seq<Slot<T>>, free: seq<u32>, live: int)

  predicate FreeInRange<T>(t: RawTable<T>) {
    forall k :: 0 <= k < |t.free| ==> t.free[k] < |t.slots|
  }

  /** What the operations themselves rely on; every operation keeps it, with no bound on size. */
  type Table<T> = t: RawTable<T> | FreeInRange(t) witness RawTable([], [], 0)

  datatype Inserted<T> = Inserted(table: Table<T>, handle: Handle)

  datatype Retained<T> = Retained(table: Table<T>, removed: nat)

  function Empty<T>(): Table<T> {
    RawTable([], [], 0)
  }

  function HandleOf<T>(slots: seq<Slot<T>>, i: nat): Handle
    requires i < |slots|
  {
    Pack(slots[i].kind, slots[i].generation, Truncate32(i))
  }

  /** Reuses the most recently freed slot, or appends a new one of generation 0. */
  function Insert<T>(t: Table<T>, kind: u8, value: T): Inserted<T> {
    if t.free != [] then
      var i := t.free[|t.free| - 1];
      var slots := t.slots[i := t.slots[i].(kind := kind, value := Some(value))];
      Inserted(RawTable(slots, t.free[..|t.free| - 1], t.live + 1), HandleOf(slots, i))
    else
      var slots := t.slots + [Slot(0, kind, Some(value), false)];
      Inserted(RawTable(slots, [], t.live + 1), HandleOf(slots, |t.slots|))
  }

  function TryInsert<T>(t: Table<T>, kind: u8, value: T, maxLive: nat): (Table<T>, Option<Handle>) {
    if t.live < maxLive then
      var r := Insert(t, kind, value);
      (r.table, Some(r.handle))
    else
      (t, None)
  }

  /** A handle resolves when its slot exists, carries its generation and holds a value. */
  function Get<T>(t: RawTable<T>, h: Handle): Option<T> {
    if h.slot < |t.slots| && t.slots[h.slot].generation == h.generation
    then t.slots[h.slot].value
    else None
  }

  /** Writing through `get_mut`: nothing happens when the handle does not resolve. */
  function Update<T>(t: Table<T>, h: Handle, value: T): Table<T> {
    if Get(t, h).None? then t
    else RawTable(t.slots[h.slot := t.slots[h.slot].(value := Some(value))], t.free, t.live)
  }

  /** The bookkeeping of one freed slot: bump its generation, or retire it when none is left. */
  function Freed<T>(s: Slot<T>): Slot<T> {
    if s.generation >= GENERATION_MAX then s.(value := None, retired := true)
    else s.(value := None, generation := s.generation + 1)
  }

  /** Empties slot `i`; unless it is now retired, it goes to the end of the free list. */
  function FreeSlot<T>(t: Table<T>, i: nat): Table<T>
    requires i < |t.slots|
  {
    var s := t.slots[i];
    RawTable(t.slots[i := Freed(s)],
             if s.generation >= GENERATION_MAX then t.free else t.free + [Truncate32(i)],
             t.live)
  }

  function Remove<T>(t: Table<T>, h: Handle): (Table<T>, Option<T>) {
    if Get(t, h).None? then (t, None)
    else (FreeSlot(t, h.slot).(live := t.live - 1), Get(t, h))
  }

  /** `keep` rejects the live entry in slot `i`. */
  predicate Rejects<T>(keep: (Handle, T) -> bool, slots: seq<Slot<T>>, i: nat)
    requires i < |slots|
  {
    slots[i].value.Some? && !keep(HandleOf(slots, i), slots[i].value.value)
  }

  /** One pass of `retain` over the slots from `i` on; `live` is settled once at the end. */
  function RetainFrom<T>(t: Table<T>, keep: (Handle, T) -> bool, i: nat): (r: Retained<T>)
    requires i <= |t.slots|
    ensures |r.table.slots| == |t.slots| && r.table.live == t.live
    decreases |t.slots| - i
  {
    if i == |t.slots| then Retained(t, 0)
    else if Rejects(keep, t.slots, i) then
      var r := RetainFrom(FreeSlot(t, i), keep, i + 1);
      Retained(r.table, r.removed + 1)
    else RetainFrom(t, keep, i + 1)
  }

  function Retain<T>(t: Table<T>, keep: (Handle, T) -> bool): Retained<T> {
    var r := RetainFrom(t, keep, 0);
    Retained(r.table.(live := t.live - r.removed), r.removed)
  }

  /** One pass of `clear` over the slots from `i` on. */
  function ClearFrom<T>(t: Table<T>, i: nat): (r: Table<T>)
    requires i <= |t.slots|
    ensures |r.slots| == |t.slots|
    decreases |t.slots| - i
  {
    if i == |t.slots| then t.(live := 0)
    else ClearFrom(if t.slots[i].value.None? then t else FreeSlot(t, i), i + 1)
  }

  function Clear<T>(t: Table<T>): Table<T> {
    ClearFrom(t, 0)
  }

  /** The live entries in slot order, from slot `i` on. */
  function EntriesFrom<T>(slots: seq<Slot<T>>, i: nat): seq<(Handle, T)>
    requires i <= |slots|
    decreases |slots| - i
  {
    if i == |slots| then []
    else if slots[i].value.Some? then
      [(HandleOf(slots, i), slots[i].value.value)] + EntriesFrom(slots, i + 1)
    else EntriesFrom(slots, i + 1)
  }

  // Measures: sums over the slots of a small weight each.

  datatype Measure = Live | Vacant | Retired | Spent | OfKind(kind: u8)

  function Weight<T>(m: Measure, s: Slot<T>): nat {
    match m
    case Live => if s.value.Some? then 1 else 0
    case Vacant => if s.value.None? && !s.retired then 1 else 0
    case Retired => if s.retired then 1 else 0
    case Spent => s.generation + if s.retired then 1 else 0
    case OfKind(k) => if s.value.Some? && s.kind == k then 1 else 0
  }

  function Sum<T>(m: Measure, slots: seq<Slot<T>>): nat {
    if slots == [] then 0 else Sum(m, slots[..|slots| - 1]) + Weight(m, slots[|slots| - 1])
  }

  lemma {:induction false} SumUpdate<T>(m: Measure, slots: seq<Slot<T>>, i: nat, s: Slot<T>)
    requires i < |slots|
    ensures Sum(m, slots[i := s]) == Sum(m, slots) - Weight(m, slots[i]) + Weight(m, s)
  {
    var n := |slots| - 1;
    if i == n {
      assert slots[i := s][..n] == slots[..n];
    } else {
      assert slots[i := s][..n] == slots[..n][i := s];
      SumUpdate(m, slots[..n], i, s);
    }
  }

  lemma SumAppend<T>(m: Measure, slots: seq<Slot<T>>, s: Slot<T>)
    ensures Sum(m, slots + [s]) == Sum(m, slots) + Weight(m, s)
  {
    assert (slots + [s])[..|slots|] == slots;
  }
}
