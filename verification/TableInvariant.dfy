/**
 The representation invariant of a handle table, the life stage of every object identity, and the
 refinement of each operation to a finite map from identities to entries.
 */
module TableInvariant {
  import opened Prelude
  import opened Handles
  import opened Tables

  predicate Unoccupied<T>(s: Slot<T>) {
    s.value.None? && !s.retired
  }

  predicate SlotOk<T>(s: Slot<T>) {
    && s.generation <= GENERATION_MAX
    && (s.retired ==> s.value.None? && s.generation == GENERATION_MAX)
  }

  ghost predicate FreeAreUnoccupied<T>(t: RawTable<T>) {
    forall k :: 0 <= k < |t.free| ==> t.free[k] < |t.slots| && Unoccupied(t.slots[t.free[k]])
  }

  ghost predicate FreeDistinct<T>(t: RawTable<T>) {
    forall j, k :: 0 <= j < k < |t.free| ==> t.free[j] != t.free[k]
  }

  ghost predicate UnoccupiedAreFree<T>(t: RawTable<T>) {
    forall i :: 0 <= i < |t.slots| && Unoccupied(t.slots[i]) ==> i in t.free
  }

  /** The free list names each empty, non-retired slot exactly once. */
  ghost predicate FreeListExact<T>(t: RawTable<T>) {
    FreeAreUnoccupied(t) && FreeDistinct(t) && UnoccupiedAreFree(t) && |t.free| == Sum(Vacant, t.slots)
  }

  /** The invariant while a bulk pass still owes `owed` decrements of the live counter. */
  ghost predicate ValidOwing<T>(t: RawTable<T>, owed: int) {
    && |t.slots| <= MAX_SLOTS
    && (forall i :: 0 <= i < |t.slots| ==> SlotOk(t.slots[i]))
    && FreeListExact(t)
    && t.live == Sum(Live, t.slots) + owed
  }

  ghost predicate Valid<T>(t: RawTable<T>) {
    ValidOwing(t, 0)
  }

  // Stages of an identity: never handed out, resolving, or gone for good.

  datatype Stage = Unissued | Resolving | Gone

  function StageOf<T>(t: RawTable<T>, id: ObjectId): Stage {
    if id.slot >= |t.slots| || id.generation > t.slots[id.slot].generation then Unissued
    else if id.generation < t.slots[id.slot].generation then Gone
    else if t.slots[id.slot].value.Some? then Resolving
    else if t.slots[id.slot].retired then Gone
    else Unissued
  }

  function Rank(s: Stage): nat {
    match s case Unissued => 0 case Resolving => 1 case Gone => 2
  }

  /** Identities only ever move forward from `t` to `t'`, and slots are never given back. */
  ghost predicate Later<T>(t: RawTable<T>, t': RawTable<T>) {
    && |t.slots| <= |t'.slots|
    && forall id {:trigger StageOf(t', id)} :: Rank(StageOf(t, id)) <= Rank(StageOf(t', id))
  }

  // The abstract map.

  datatype Entry<T> = Entry(kind: u8, value: T)

  ghost function Contents<T>(t: RawTable<T>): map<ObjectId, Entry<T>> {
    map i | 0 <= i < |t.slots| && t.slots[i].value.Some? ::
      ObjectId(i, t.slots[i].generation) := Entry(t.slots[i].kind, t.slots[i].value.value)
  }

  lemma ContentsAt<T>(t: RawTable<T>, id: ObjectId)
    ensures id in Contents(t) <==> StageOf(t, id) == Resolving
    ensures id in Contents(t) ==>
              t.slots[id.slot].value.Some? &&
              Contents(t)[id] == Entry(t.slots[id.slot].kind, t.slots[id.slot].value.value)
  {
    if StageOf(t, id) == Resolving {
      assert id == ObjectId(id.slot, t.slots[id.slot].generation);
    }
  }

  /** Lookup is map lookup by identity; the kind byte of the handle plays no part. */
  lemma GetIsLookup<T>(t: RawTable<T>, h: Handle)
    ensures Get(t, h).Some? <==> h.Id() in Contents(t)
    ensures Get(t, h).Some? ==> Get(t, h).value == Contents(t)[h.Id()].value
  {
    ContentsAt(t, h.Id());
  }

  lemma EmptyContents<T>()
    ensures Contents(Empty<T>()) == map[]
    ensures forall id {:trigger StageOf(Empty<T>(), id)} :: StageOf(Empty<T>(), id) == Unissued
  {
    var t := Empty<T>();
    forall id ensures id !in Contents(t) {
      ContentsAt(t, id);
    }
  }

  lemma EmptyValid<T>()
    ensures Valid(Empty<T>()) && Contents(Empty<T>()) == map[]
    ensures forall id {:trigger StageOf(Empty<T>(), id)} :: StageOf(Empty<T>(), id) == Unissued
  {
    hide Contents, StageOf;
    EmptyContents<T>();
    var t := Empty<T>();
    assert FreeAreUnoccupied(t) && FreeDistinct(t) && UnoccupiedAreFree(t);
  }

  // Insert

  lemma InsertUnoccupiedAreFree<T>(t: Table<T>, kind: u8, value: T)
    requires UnoccupiedAreFree(t)
    ensures UnoccupiedAreFree(Insert(t, kind, value).table)
  {
    var t' := Insert(t, kind, value).table;
    forall j | 0 <= j < |t'.slots| && Unoccupied(t'.slots[j]) ensures j in t'.free {
      assert j < |t.slots| && t'.slots[j] == t.slots[j];
      var k :| 0 <= k < |t.free| && t.free[k] == j;
      assert t'.free[k] == j;
    }
  }

  lemma InsertFreeDistinct<T>(t: Table<T>, kind: u8, value: T)
    requires FreeAreUnoccupied(t) && FreeDistinct(t)
    ensures FreeAreUnoccupied(Insert(t, kind, value).table) && FreeDistinct(Insert(t, kind, value).table)
  {
    hide HandleOf;
    if t.free != [] {
      var n := |t.free| - 1;
      assert forall k :: 0 <= k < n ==> t.free[k] != t.free[n];
    }
  }

  lemma InsertKeepsFreeList<T>(t: Table<T>, kind: u8, value: T)
    requires FreeListExact(t)
    ensures FreeListExact(Insert(t, kind, value).table)
  {
    hide Sum, FreeDistinct, UnoccupiedAreFree, HandleOf;
    InsertFreeDistinct(t, kind, value);
    InsertUnoccupiedAreFree(t, kind, value);
    var t' := Insert(t, kind, value).table;
    if t.free != [] {
      var i := t.free[|t.free| - 1];
      SumUpdate(Vacant, t.slots, i, t'.slots[i]);
    } else {
      SumAppend(Vacant, t.slots, t'.slots[|t.slots|]);
    }
  }

  /** Insertion keeps the invariant for as long as slot numbers fit in 32 bits. */
  lemma InsertValid<T>(t: Table<T>, kind: u8, value: T)
    requires Valid(t)
    requires |Insert(t, kind, value).table.slots| <= MAX_SLOTS
    ensures Valid(Insert(t, kind, value).table)
  {
    InsertKeepsFreeList(t, kind, value);
    var t' := Insert(t, kind, value).table;
    if t.free != [] {
      var i := t.free[|t.free| - 1];
      SumUpdate(Live, t.slots, i, t'.slots[i]);
    } else {
      SumAppend(Live, t.slots, t'.slots[|t.slots|]);
    }
  }

  lemma InsertStage<T>(t: Table<T>, kind: u8, value: T, id: ObjectId)
    requires Valid(t)
    requires |Insert(t, kind, value).table.slots| <= MAX_SLOTS
    ensures var r := Insert(t, kind, value);
            if id == r.handle.Id() then StageOf(t, id) == Unissued && StageOf(r.table, id) == Resolving
            else StageOf(r.table, id) == StageOf(t, id)
  {
    var r := Insert(t, kind, value);
    var i := if t.free != [] then t.free[|t.free| - 1] else |t.slots|;
  }

  /** Insertion hands out an identity never seen before, under the given kind, and touches no other. */
  lemma InsertStages<T>(t: Table<T>, kind: u8, value: T)
    requires Valid(t)
    requires |Insert(t, kind, value).table.slots| <= MAX_SLOTS
    ensures var r := Insert(t, kind, value);
            && r.handle.kind == kind
            && StageOf(t, r.handle.Id()) == Unissued
            && StageOf(r.table, r.handle.Id()) == Resolving
            && Get(r.table, r.handle) == Some(value)
            && (forall id {:trigger StageOf(r.table, id)} :: id != r.handle.Id() ==> StageOf(r.table, id) == StageOf(t, id))
            && Later(t, r.table)
  {
    var r := Insert(t, kind, value);
    var i := if t.free != [] then t.free[|t.free| - 1] else |t.slots|;
    forall id ensures if id == r.handle.Id() then StageOf(t, id) == Unissued && StageOf(r.table, id) == Resolving
                      else StageOf(r.table, id) == StageOf(t, id) {
      InsertStage(t, kind, value, id);
    }
  }

  /** Insertion refines adding one fresh binding to the map. */
  lemma InsertRefines<T>(t: Table<T>, kind: u8, value: T)
    requires Valid(t)
    requires |Insert(t, kind, value).table.slots| <= MAX_SLOTS
    ensures var r := Insert(t, kind, value);
            && r.handle.Id() !in Contents(t)
            && Contents(r.table) == Contents(t)[r.handle.Id() := Entry(kind, value)]
  {
    var r := Insert(t, kind, value);
    var expected := Contents(t)[r.handle.Id() := Entry(kind, value)];
    forall id ensures (id in Contents(r.table) <==> id in expected) &&
                      (id in expected ==> Contents(r.table)[id] == expected[id])
    {
      InsertEntry(t, kind, value, id);
    }
    InsertStage(t, kind, value, r.handle.Id());
    ContentsAt(t, r.handle.Id());
  }

  lemma InsertEntry<T>(t: Table<T>, kind: u8, value: T, id: ObjectId)
    requires Valid(t)
    requires |Insert(t, kind, value).table.slots| <= MAX_SLOTS
    ensures var r := Insert(t, kind, value);
            && (id in Contents(r.table) <==> id == r.handle.Id() || id in Contents(t))
            && (id in Contents(r.table) ==>
                  Contents(r.table)[id] == if id == r.handle.Id() then Entry(kind, value) else Contents(t)[id])
  {
    var r := Insert(t, kind, value);
    var i := if t.free != [] then t.free[|t.free| - 1] else |t.slots|;
    InsertStage(t, kind, value, id);
    ContentsAt(t, id);
    ContentsAt(r.table, id);
  }

  // Freeing one slot, as `remove`, `retain` and `clear` all do

  lemma FreeSlotUnoccupiedAreFree<T>(t: Table<T>, i: nat)
    requires UnoccupiedAreFree(t)
    requires i < |t.slots| <= MAX_SLOTS
    ensures UnoccupiedAreFree(FreeSlot(t, i))
  {
    var t' := FreeSlot(t, i);
    forall j | 0 <= j < |t'.slots| && Unoccupied(t'.slots[j]) ensures j in t'.free {
      if j == i {
        assert t'.free[|t.free|] == i;
      } else {
        var k :| 0 <= k < |t.free| && t.free[k] == j;
        assert t'.free[k] == j;
      }
    }
  }

  lemma FreeSlotDistinct<T>(t: Table<T>, i: nat)
    requires FreeAreUnoccupied(t) && FreeDistinct(t)
    requires i < |t.slots| <= MAX_SLOTS && t.slots[i].value.Some? && SlotOk(t.slots[i])
    ensures FreeAreUnoccupied(FreeSlot(t, i)) && FreeDistinct(FreeSlot(t, i))
  {
    assert i !in t.free;
    var t' := FreeSlot(t, i);
    forall k | 0 <= k < |t'.free| ensures t'.free[k] < |t'.slots| && Unoccupied(t'.slots[t'.free[k]]) {
      if k < |t.free| {
        assert t'.free[k] == t.free[k] != i;
      }
    }
  }

  lemma FreeSlotKeepsFreeList<T>(t: Table<T>, i: nat)
    requires |t.slots| <= MAX_SLOTS && FreeListExact(t)
    requires i < |t.slots| && t.slots[i].value.Some? && SlotOk(t.slots[i])
    ensures FreeListExact(FreeSlot(t, i))
  {
    hide Sum, FreeAreUnoccupied, FreeDistinct, UnoccupiedAreFree;
    FreeSlotDistinct(t, i);
    FreeSlotUnoccupiedAreFree(t, i);
    SumUpdate(Vacant, t.slots, i, Freed(t.slots[i]));
  }

  lemma FreeSlotValid<T>(t: Table<T>, i: nat, owed: int)
    requires ValidOwing(t, owed)
    requires i < |t.slots| && t.slots[i].value.Some?
    ensures ValidOwing(FreeSlot(t, i), owed + 1)
    ensures Sum(Spent, FreeSlot(t, i).slots) == Sum(Spent, t.slots) + 1
  {
    FreeSlotKeepsFreeList(t, i);
    SumUpdate(Live, t.slots, i, Freed(t.slots[i]));
    SumUpdate(Spent, t.slots, i, Freed(t.slots[i]));
  }

  lemma FreeSlotStage<T>(t: Table<T>, i: nat, o: ObjectId)
    requires i < |t.slots| && t.slots[i].value.Some? && SlotOk(t.slots[i])
    ensures var t' := FreeSlot(t, i);
            && (if o == ObjectId(i, t.slots[i].generation)
                then StageOf(t, o) == Resolving && StageOf(t', o) == Gone
                else StageOf(t', o) == StageOf(t, o))
            && (o in Contents(t') <==> o != ObjectId(i, t.slots[i].generation) && o in Contents(t))
            && (o in Contents(t') ==> Contents(t')[o] == Contents(t)[o])
  {
    ContentsAt(t, o);
    ContentsAt(FreeSlot(t, i), o);
  }

  lemma FreeSlotStages<T>(t: Table<T>, i: nat)
    requires i < |t.slots| && t.slots[i].value.Some? && SlotOk(t.slots[i])
    ensures var id := ObjectId(i, t.slots[i].generation);
            && StageOf(t, id) == Resolving
            && StageOf(FreeSlot(t, i), id) == Gone
            && (forall o {:trigger StageOf(FreeSlot(t, i), o)} :: o != id ==> StageOf(FreeSlot(t, i), o) == StageOf(t, o))
            && Later(t, FreeSlot(t, i))
            && Contents(FreeSlot(t, i)) == Contents(t) - {id}
  {
    var id := ObjectId(i, t.slots[i].generation);
    var t' := FreeSlot(t, i);
    FreeSlotStage(t, i, id);
    forall o
      ensures o != id ==> StageOf(t', o) == StageOf(t, o)
      ensures o in Contents(t') <==> o in Contents(t) - {id}
      ensures o in Contents(t') ==> Contents(t')[o] == (Contents(t) - {id})[o]
    {
      FreeSlotStage(t, i, o);
    }
  }

  // Remove

  lemma RemoveValid<T>(t: Table<T>, h: Handle)
    requires Valid(t)
    ensures Valid(Remove(t, h).0)
    ensures |Remove(t, h).0.slots| == |t.slots|
    ensures Sum(Spent, Remove(t, h).0.slots) == Sum(Spent, t.slots) + if Remove(t, h).1.Some? then 1 else 0
  {
    if Get(t, h).Some? {
      FreeSlotValid(t, h.slot, 0);
    }
  }

  /** Removal returns what the handle resolved to, makes that identity gone and touches no other. */
  lemma RemoveRefines<T>(t: Table<T>, h: Handle)
    requires Valid(t)
    ensures var (t', removed) := Remove(t, h);
            && removed == Get(t, h)
            && (removed.None? ==> t' == t)
            && (removed.Some? ==> StageOf(t', h.Id()) == Gone)
            && (forall o {:trigger StageOf(t', o)} :: o != h.Id() ==> StageOf(t', o) == StageOf(t, o))
            && Later(t, t')
            && Contents(t') == Contents(t) - {h.Id()}
  {
    ContentsAt(t, h.Id());
    if Get(t, h).Some? {
      FreeSlotStages(t, h.slot);
      var t' := Remove(t, h).0;
      assert Contents(t') == Contents(FreeSlot(t, h.slot));
      assert forall o :: StageOf(t', o) == StageOf(FreeSlot(t, h.slot), o);
    }
  }

  // Update

  lemma UpdateValid<T>(t: Table<T>, h: Handle, value: T)
    requires Valid(t)
    ensures Valid(Update(t, h, value))
    ensures Sum(Spent, Update(t, h, value).slots) == Sum(Spent, t.slots)
  {
    if Get(t, h).Some? {
      var s' := t.slots[h.slot].(value := Some(value));
      SumUpdate(Live, t.slots, h.slot, s');
      SumUpdate(Vacant, t.slots, h.slot, s');
      SumUpdate(Spent, t.slots, h.slot, s');
      var t' := Update(t, h, value);
      forall j | 0 <= j < |t'.slots| && Unoccupied(t'.slots[j]) ensures j in t'.free {
        assert Unoccupied(t.slots[j]);
      }
    }
  }

  /** Writing through a stale handle does nothing. */
  lemma UpdateStale<T>(t: Table<T>, h: Handle, value: T)
    requires h.Id() !in Contents(t)
    ensures Update(t, h, value) == t
  {
    GetIsLookup(t, h);
  }

  /** Writing through a live handle keeps every stage and rebinds the value of one identity. */
  lemma UpdateRefines<T>(t: Table<T>, h: Handle, value: T)
    requires Get(t, h).Some?
    ensures var t' := Update(t, h, value);
            && Later(t, t')
            && (forall o {:trigger StageOf(t', o)} :: StageOf(t', o) == StageOf(t, o))
            && h.Id() in Contents(t)
            && Contents(t') == Contents(t)[h.Id() := Entry(Contents(t)[h.Id()].kind, value)]
  {
    var t' := Update(t, h, value);
    ContentsAt(t, h.Id());
    var expected := Contents(t)[h.Id() := Entry(Contents(t)[h.Id()].kind, value)];
    forall o ensures o in Contents(t') <==> o in expected {
      ContentsAt(t, o);
      ContentsAt(t', o);
    }
    forall o | o in Contents(t') ensures Contents(t')[o] == expected[o] {
      ContentsAt(t, o);
      ContentsAt(t', o);
    }
  }

  // Counting

  lemma {:induction false} SlotsPartition<T>(slots: seq<Slot<T>>)
    requires forall i :: 0 <= i < |slots| ==> SlotOk(slots[i])
    ensures Sum(Live, slots) + Sum(Vacant, slots) + Sum(Retired, slots) == |slots|
    ensures Sum(Retired, slots) * (GENERATION_MAX + 1) <= Sum(Spent, slots)
  {
    if slots != [] {
      SlotsPartition(slots[..|slots| - 1]);
    }
  }

  /** Live, free and retired slots make up the whole capacity. */
  lemma CapacityPartition<T>(t: RawTable<T>)
    requires Valid(t)
    ensures t.live + |t.free| + Sum(Retired, t.slots) == |t.slots|
    ensures t.live >= 0
  {
    SlotsPartition(t.slots);
  }
}
