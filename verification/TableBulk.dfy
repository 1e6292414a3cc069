/** Bulk frees (`retain`, `clear`) and the read-only listings of a handle table. */
module TableBulk {
  import opened Prelude
  import opened Handles
  import opened Tables
  import opened TableInvariant

  function Entries<T>(t: RawTable<T>): seq<(Handle, T)> {
    EntriesFrom(t.slots, 0)
  }

  /** The handles of a listing that `keep` turns down, in listing order. */
  function Rejected<T>(entries: seq<(Handle, T)>, keep: (Handle, T) -> bool): seq<Handle> {
    if entries == [] then []
    else
      var (h, v) := entries[0];
      (if keep(h, v) then [] else [h]) + Rejected(entries[1..], keep)
  }

  function RemoveAll<T>(t: Table<T>, handles: seq<Handle>): Table<T>
    decreases |handles|
  {
    if handles == [] then t else RemoveAll(Remove(t, handles[0]).0, handles[1..])
  }

  lemma EntriesFromAgree<T>(a: seq<Slot<T>>, b: seq<Slot<T>>, i: nat)
    requires i <= |a| == |b|
    requires forall j :: i <= j < |a| ==> a[j] == b[j]
    ensures EntriesFrom(a, i) == EntriesFrom(b, i)
    decreases |a| - i
  {
    if i < |a| {
      EntriesFromAgree(a, b, i + 1);
    }
  }

  lemma RetainIgnoresLive<T>(t: Table<T>, live: int, keep: (Handle, T) -> bool, i: nat)
    requires i <= |t.slots|
    ensures RetainFrom(t.(live := live), keep, i) ==
            Retained(RetainFrom(t, keep, i).table.(live := live), RetainFrom(t, keep, i).removed)
    decreases |t.slots| - i
  {
    if i < |t.slots| {
      if Rejects(keep, t.slots, i) {
        RetainIgnoresLive(FreeSlot(t, i), live, keep, i + 1);
      } else {
        RetainIgnoresLive(t, live, keep, i + 1);
      }
    }
  }

  /** Freeing slot `i` in a pass is removing the handle that slot's entry is listed under. */
  lemma RemoveListed<T>(t: Table<T>, i: nat)
    requires i < |t.slots| <= MAX_SLOTS
    requires t.slots[i].value.Some? && t.slots[i].generation <= GENERATION_MAX
    ensures Remove(t, HandleOf(t.slots, i)).0 == FreeSlot(t, i).(live := t.live - 1)
  {
  }

  lemma RejectedStep<T>(slots: seq<Slot<T>>, keep: (Handle, T) -> bool, i: nat)
    requires i < |slots|
    ensures Rejected(EntriesFrom(slots, i), keep) ==
            (if Rejects(keep, slots, i) then [HandleOf(slots, i)] else []) + Rejected(EntriesFrom(slots, i + 1), keep)
  {
    if slots[i].value.Some? {
      assert EntriesFrom(slots, i)[1..] == EntriesFrom(slots, i + 1);
    }
  }

  lemma EntriesFromEnd<T>(slots: seq<Slot<T>>)
    ensures EntriesFrom(slots, |slots|) == []
    ensures forall keep: (Handle, T) -> bool {:trigger Rejected([], keep)} :: Rejected([], keep) == []
  {
  }

  lemma {:induction false} RetainFromIsRemoves<T>(t: Table<T>, keep: (Handle, T) -> bool, i: nat)
    requires i <= |t.slots| <= MAX_SLOTS
    requires forall j :: i <= j < |t.slots| ==> t.slots[j].generation <= GENERATION_MAX
    ensures var r := RetainFrom(t, keep, i);
            var doomed := Rejected(EntriesFrom(t.slots, i), keep);
            RemoveAll(t, doomed) == r.table.(live := t.live - r.removed) && r.removed == |doomed|
    decreases |t.slots| - i
  {
    hide Remove, Freed, HandleOf, EntriesFrom, Rejected;
    EntriesFromEnd(t.slots);
    if i < |t.slots| {
      var rest := Rejected(EntriesFrom(t.slots, i + 1), keep);
      RejectedStep(t.slots, keep, i);
      if Rejects(keep, t.slots, i) {
        var next := FreeSlot(t, i).(live := t.live - 1);
        RemoveListed(t, i);
        EntriesFromAgree(t.slots, next.slots, i + 1);
        assert ([HandleOf(t.slots, i)] + rest)[1..] == rest;
        RetainIgnoresLive(FreeSlot(t, i), t.live - 1, keep, i + 1);
        RetainFromIsRemoves(next, keep, i + 1);
      } else {
        RetainFromIsRemoves(t, keep, i + 1);
        assert [] + rest == rest;
      }
    }
  }

  /** `retain` is `remove` on each rejected live handle in slot order, down to the free-list order. */
  lemma RetainIsRepeatedRemove<T>(t: Table<T>, keep: (Handle, T) -> bool)
    requires Valid(t)
    ensures Retain(t, keep).table == RemoveAll(t, Rejected(Entries(t), keep))
    ensures Retain(t, keep).removed == |Rejected(Entries(t), keep)|
  {
    RetainFromIsRemoves(t, keep, 0);
  }

  lemma FreeSlotLength<T>(t: Table<T>)
    ensures forall i :: 0 <= i < |t.slots| ==> |FreeSlot(t, i).slots| == |t.slots|
  {
  }

  lemma {:induction false} RetainFromValid<T>(t: Table<T>, keep: (Handle, T) -> bool, i: nat, owed: int)
    requires ValidOwing(t, owed) && i <= |t.slots|
    ensures var r := RetainFrom(t, keep, i);
            && ValidOwing(r.table, owed + r.removed)
            && Sum(Spent, r.table.slots) == Sum(Spent, t.slots) + r.removed
    decreases |t.slots| - i
  {
    hide FreeListExact, FreeSlot, Sum, SlotOk;
    FreeSlotLength(t);
    if i < |t.slots| {
      if Rejects(keep, t.slots, i) {
        FreeSlotValid(t, i, owed);
        RetainFromValid(FreeSlot(t, i), keep, i + 1, owed + 1);
      } else {
        RetainFromValid(t, keep, i + 1, owed);
      }
    }
  }

  /** A pass from slot `i` frees exactly the rejected slots it visits. */
  lemma {:induction false} RetainFromSlots<T>(t: Table<T>, keep: (Handle, T) -> bool, i: nat, j: nat)
    requires i <= |t.slots| && j < |t.slots|
    ensures RetainFrom(t, keep, i).table.slots[j] ==
            if i <= j && Rejects(keep, t.slots, j) then Freed(t.slots[j]) else t.slots[j]
    decreases |t.slots| - i
  {
    if i < |t.slots| {
      RetainFromSlots(if Rejects(keep, t.slots, i) then FreeSlot(t, i) else t, keep, i + 1, j);
    }
  }

  /** A rejected entry's identity is gone after `retain`; every other identity keeps its stage. */
  lemma RetainStage<T>(t: Table<T>, keep: (Handle, T) -> bool, id: ObjectId)
    requires Valid(t)
    ensures StageOf(Retain(t, keep).table, id) ==
            if StageOf(t, id) == Resolving && Rejects(keep, t.slots, id.slot) then Gone else StageOf(t, id)
  {
    if id.slot < |t.slots| {
      RetainFromSlots(t, keep, 0, id.slot);
    }
  }

  lemma RetainValid<T>(t: Table<T>, keep: (Handle, T) -> bool)
    requires Valid(t)
    ensures var r := Retain(t, keep);
            && Valid(r.table)
            && |r.table.slots| == |t.slots|
            && Sum(Spent, r.table.slots) == Sum(Spent, t.slots) + r.removed
            && Later(t, r.table)
  {
    RetainFromValid(t, keep, 0, 0);
    var t' := Retain(t, keep).table;
    forall id ensures Rank(StageOf(t, id)) <= Rank(StageOf(t', id)) {
      RetainStage(t, keep, id);
    }
  }

  predicate KeepsEntry<T>(keep: (Handle, T) -> bool, id: ObjectId, e: Entry<T>) {
    id.generation <= GENERATION_MAX && id.slot < MAX_SLOTS && keep(Pack(e.kind, id.generation, id.slot), e.value)
  }

  lemma RetainEntry<T>(t: Table<T>, keep: (Handle, T) -> bool, id: ObjectId)
    requires Valid(t)
    ensures var t' := Retain(t, keep).table;
            && (id in Contents(t') <==> id in Contents(t) && KeepsEntry(keep, id, Contents(t)[id]))
            && (id in Contents(t') ==> Contents(t')[id] == Contents(t)[id])
  {
    hide Contents, FreeListExact, RetainFrom;
    var t' := Retain(t, keep).table;
    RetainStage(t, keep, id);
    ContentsAt(t, id);
    ContentsAt(t', id);
    if id in Contents(t') {
      RetainFromSlots(t, keep, 0, id.slot);
    }
  }

  /** `retain` refines filtering the map by `keep`. */
  lemma RetainRefines<T>(t: Table<T>, keep: (Handle, T) -> bool)
    requires Valid(t)
    ensures Contents(Retain(t, keep).table) == map id | id in Contents(t) && KeepsEntry(keep, id, Contents(t)[id]) :: Contents(t)[id]
  {
    hide Contents, Retain, KeepsEntry, Valid;
    var t' := Retain(t, keep).table;
    forall id
      ensures id in Contents(t') <==> id in Contents(t) && KeepsEntry(keep, id, Contents(t)[id])
      ensures id in Contents(t') ==> Contents(t')[id] == Contents(t)[id]
    {
      RetainEntry(t, keep, id);
    }
  }

  lemma {:induction false} ClearFromIsRetain<T(!new)>(t: Table<T>, keep: (Handle, T) -> bool, i: nat)
    requires forall h, v :: !keep(h, v)
    requires i <= |t.slots|
    ensures ClearFrom(t, i) == RetainFrom(t, keep, i).table.(live := 0)
    decreases |t.slots| - i
  {
    if i < |t.slots| {
      ClearFromIsRetain(if Rejects(keep, t.slots, i) then FreeSlot(t, i) else t, keep, i + 1);
    }
  }

  /** Emptying slot `i` takes one live entry off the whole and leaves none of the slot in the prefix. */
  lemma FreedCounts<T>(slots: seq<Slot<T>>, i: nat)
    requires i < |slots| && slots[i].value.Some?
    ensures var next := slots[i := Freed(slots[i])];
            && Sum(Live, next) == Sum(Live, slots) - 1
            && Sum(Live, next[..i + 1]) == Sum(Live, slots[..i])
  {
    hide Sum;
    var next := slots[i := Freed(slots[i])];
    SumUpdate(Live, slots, i, next[i]);
    assert next[..i + 1] == slots[..i] + [next[i]];
    SumAppend(Live, slots[..i], next[i]);
  }

  lemma {:induction false} RetainFromCount<T(!new)>(t: Table<T>, keep: (Handle, T) -> bool, i: nat)
    requires forall h, v :: !keep(h, v)
    requires i <= |t.slots|
    ensures RetainFrom(t, keep, i).removed == Sum(Live, t.slots) - Sum(Live, t.slots[..i])
    decreases |t.slots| - i
  {
    hide Sum, Freed, Pack, Truncate32;
    if i < |t.slots| {
      assert t.slots[..i + 1] == t.slots[..i] + [t.slots[i]];
      SumAppend(Live, t.slots[..i], t.slots[i]);
      if Rejects(keep, t.slots, i) {
        FreedCounts(t.slots, i);
        RetainFromCount(FreeSlot(t, i), keep, i + 1);
      } else {
        RetainFromCount(t, keep, i + 1);
      }
    } else {
      assert t.slots[..i] == t.slots;
    }
  }

  /** `clear` is `retain` with a predicate that rejects everything, and leaves nothing resolving. */
  lemma ClearIsRetainNothing<T(!new)>(t: Table<T>, keep: (Handle, T) -> bool)
    requires Valid(t)
    requires forall h, v :: !keep(h, v)
    ensures Clear(t) == Retain(t, keep).table
    ensures Retain(t, keep).removed == t.live
    ensures Clear(t).live == 0 && Contents(Clear(t)) == map[]
  {
    ClearFromIsRetain(t, keep, 0);
    RetainFromCount(t, keep, 0);
    RetainRefines(t, keep);
  }

  // Listings

  lemma {:induction false} EntriesFromCount<T>(slots: seq<Slot<T>>, i: nat)
    requires i <= |slots|
    ensures |EntriesFrom(slots, i)| == Sum(Live, slots) - Sum(Live, slots[..i])
    decreases |slots| - i
  {
    if i == |slots| {
      assert slots[..i] == slots;
    } else {
      assert slots[..i + 1] == slots[..i] + [slots[i]];
      SumAppend(Live, slots[..i], slots[i]);
      EntriesFromCount(slots, i + 1);
    }
  }

  ghost predicate Lists<T>(t: RawTable<T>, e: (Handle, T)) {
    e.0.Id() in Contents(t) && Contents(t)[e.0.Id()] == Entry(e.0.kind, e.1)
  }

  lemma ListedAt<T>(t: RawTable<T>, i: nat)
    requires i < |t.slots| <= MAX_SLOTS && SlotOk(t.slots[i]) && t.slots[i].value.Some?
    ensures Lists(t, (HandleOf(t.slots, i), t.slots[i].value.value))
    ensures HandleOf(t.slots, i).slot == i
  {
    ContentsAt(t, ObjectId(i, t.slots[i].generation));
  }

  ghost predicate ListsFrom<T>(t: RawTable<T>, es: seq<(Handle, T)>, i: nat) {
    && (forall k :: 0 <= k < |es| ==> Lists(t, es[k]) && i <= es[k].0.slot)
    && (forall j, k :: 0 <= j < k < |es| ==> es[j].0.slot < es[k].0.slot)
  }

  lemma {:induction false} EntriesFromListed<T>(t: RawTable<T>, i: nat)
    requires i <= |t.slots| <= MAX_SLOTS
    requires forall j :: 0 <= j < |t.slots| ==> SlotOk(t.slots[j])
    ensures ListsFrom(t, EntriesFrom(t.slots, i), i)
    decreases |t.slots| - i
  {
    if i < |t.slots| {
      var rest := EntriesFrom(t.slots, i + 1);
      EntriesFromListed(t, i + 1);
      if t.slots[i].value.Some? {
        var e := (HandleOf(t.slots, i), t.slots[i].value.value);
        ListedAt(t, i);
        assert ListsFrom(t, [e] + rest, i);
      } else {
        assert ListsFrom(t, rest, i);
      }
    }
  }

  lemma {:induction false} EntriesFromComplete<T>(t: RawTable<T>, i: nat, id: ObjectId)
    requires i <= |t.slots| <= MAX_SLOTS
    requires forall j :: 0 <= j < |t.slots| ==> SlotOk(t.slots[j])
    requires id in Contents(t) && i <= id.slot
    ensures exists k :: 0 <= k < |EntriesFrom(t.slots, i)| && EntriesFrom(t.slots, i)[k].0.Id() == id
    decreases |t.slots| - i
  {
    ContentsAt(t, id);
    var es := EntriesFrom(t.slots, i);
    if i == id.slot {
      assert es[0].0.Id() == id;
    } else {
      EntriesFromComplete(t, i + 1, id);
      var rest := EntriesFrom(t.slots, i + 1);
      var k :| 0 <= k < |rest| && rest[k].0.Id() == id;
      assert es[if t.slots[i].value.Some? then k + 1 else k] == rest[k];
    }
  }

  /** `iter` lists the map: every binding once, in ascending slot order, `len` of them. */
  lemma IterListsContents<T>(t: RawTable<T>)
    requires Valid(t)
    ensures var es := Entries(t);
            && |es| == t.live
            && (forall k :: 0 <= k < |es| ==>
                  Lists(t, es[k]) && Get(t, es[k].0) == Some(es[k].1))
            && (forall j, k :: 0 <= j < k < |es| ==> es[j].0.slot < es[k].0.slot)
            && (forall id :: id in Contents(t) ==> exists k :: 0 <= k < |es| && es[k].0.Id() == id)
  {
    EntriesFromListed(t, 0);
    EntriesFromCount(t.slots, 0);
    var es := Entries(t);
    forall k | 0 <= k < |es| ensures Get(t, es[k].0) == Some(es[k].1) {
      GetIsLookup(t, es[k].0);
    }
    forall id | id in Contents(t) ensures exists k :: 0 <= k < |es| && es[k].0.Id() == id {
      EntriesFromComplete(t, 0, id);
    }
  }

  function WithKind<T>(entries: seq<(Handle, T)>, kind: u8): seq<(Handle, T)> {
    if entries == [] then []
    else (if entries[0].0.kind == kind then [entries[0]] else []) + WithKind(entries[1..], kind)
  }

  lemma {:induction false} WithKindHolds<T>(entries: seq<(Handle, T)>, kind: u8, e: (Handle, T))
    ensures e in WithKind(entries, kind) <==> e in entries && e.0.kind == kind
  {
    if entries != [] {
      WithKindHolds(entries[1..], kind, e);
      assert entries == [entries[0]] + entries[1..];
    }
  }

  ghost predicate SlotsAscend<T>(entries: seq<(Handle, T)>) {
    forall j, k :: 0 <= j < k < |entries| ==> entries[j].0.slot < entries[k].0.slot
  }

  lemma AllLater<T>(entries: seq<(Handle, T)>, kind: u8, e: (Handle, T))
    requires entries != [] && SlotsAscend(entries) && e in WithKind(entries[1..], kind)
    ensures entries[0].0.slot < e.0.slot
  {
    hide WithKind;
    var tail := entries[1..];
    WithKindHolds(tail, kind, e);
    var j :| 0 <= j < |tail| && tail[j] == e;
    assert entries[j + 1] == e;
  }

  /** `iter_kind` lists what `iter` does, less the entries of other kinds, in the same order. */
  lemma {:induction false} WithKindExact<T>(entries: seq<(Handle, T)>, kind: u8)
    requires SlotsAscend(entries)
    ensures forall e :: e in WithKind(entries, kind) <==> e in entries && e.0.kind == kind
    ensures SlotsAscend(WithKind(entries, kind))
  {
    WithKindAscends(entries, kind);
    forall e ensures e in WithKind(entries, kind) <==> e in entries && e.0.kind == kind {
      WithKindHolds(entries, kind, e);
    }
  }

  lemma {:induction false} WithKindAscends<T>(entries: seq<(Handle, T)>, kind: u8)
    requires SlotsAscend(entries)
    ensures SlotsAscend(WithKind(entries, kind))
  {
    if entries != [] {
      WithKindAscends(entries[1..], kind);
      var rest := WithKind(entries[1..], kind);
      forall k | 0 <= k < |rest| ensures entries[0].0.slot < rest[k].0.slot {
        AllLater(entries, kind, rest[k]);
      }
    }
  }

  lemma EntriesStep<T>(slots: seq<Slot<T>>, kind: u8, i: nat)
    requires i < |slots|
    ensures WithKind(EntriesFrom(slots, i), kind) ==
            (if slots[i].value.Some? && slots[i].kind == kind then [(HandleOf(slots, i), slots[i].value.value)] else [])
            + WithKind(EntriesFrom(slots, i + 1), kind)
  {
    if slots[i].value.Some? {
      assert EntriesFrom(slots, i)[1..] == EntriesFrom(slots, i + 1);
    }
  }

  lemma {:induction false} WithKindCount<T>(slots: seq<Slot<T>>, kind: u8, i: nat)
    requires i <= |slots| <= MAX_SLOTS
    requires forall j :: 0 <= j < |slots| ==> SlotOk(slots[j])
    ensures |WithKind(EntriesFrom(slots, i), kind)| == Sum(OfKind(kind), slots) - Sum(OfKind(kind), slots[..i])
    decreases |slots| - i
  {
    if i == |slots| {
      assert slots[..i] == slots;
    } else {
      assert slots[..i + 1] == slots[..i] + [slots[i]];
      SumAppend(OfKind(kind), slots[..i], slots[i]);
      WithKindCount(slots, kind, i + 1);
      if slots[i].value.Some? {
        assert EntriesFrom(slots, i)[1..] == EntriesFrom(slots, i + 1);
      }
    }
  }

  // kinds

  predicate Ascending(ks: seq<u8>) {
    forall i, j :: 0 <= i < j < |ks| ==> ks[i] < ks[j]
  }

  function WithinSorted(ks: seq<u8>, k: u8): seq<u8> {
    if ks == [] || k < ks[0] then [k] + ks
    else if k == ks[0] then ks
    else [ks[0]] + WithinSorted(ks[1..], k)
  }

  lemma {:induction false} WithinSortedHolds(ks: seq<u8>, k: u8, x: u8)
    ensures x in WithinSorted(ks, k) <==> x == k || x in ks
  {
    if ks != [] && k != ks[0] && !(k < ks[0]) {
      WithinSortedHolds(ks[1..], k, x);
      assert x in ks <==> x == ks[0] || x in ks[1..];
    }
  }

  lemma {:induction false} WithinSortedAscending(ks: seq<u8>, k: u8)
    requires Ascending(ks)
    ensures Ascending(WithinSorted(ks, k))
  {
    if ks != [] && ks[0] < k {
      WithinSortedAscending(ks[1..], k);
      var r := WithinSorted(ks[1..], k);
      forall j | 0 <= j < |r| ensures ks[0] < r[j] {
        WithinSortedHolds(ks[1..], k, r[j]);
      }
    }
  }

  /** The sorted, de-duplicated kind bytes of the live slots. */
  function Kinds<T>(slots: seq<Slot<T>>): seq<u8> {
    if slots == [] then []
    else
      var s := slots[|slots| - 1];
      var ks := Kinds(slots[..|slots| - 1]);
      if s.value.Some? then WithinSorted(ks, s.kind) else ks
  }

  lemma {:induction false} KindsExact<T>(slots: seq<Slot<T>>)
    ensures Ascending(Kinds(slots))
    ensures forall k: u8 :: k in Kinds(slots) <==> exists i :: 0 <= i < |slots| && slots[i].value.Some? && slots[i].kind == k
  {
    if slots != [] {
      var n := |slots| - 1;
      KindsExact(slots[..n]);
      if slots[n].value.Some? {
        WithinSortedAscending(Kinds(slots[..n]), slots[n].kind);
      }
      forall k: u8 ensures k in Kinds(slots) <==> exists i :: 0 <= i < |slots| && slots[i].value.Some? && slots[i].kind == k {
        WithinSortedHolds(Kinds(slots[..n]), slots[n].kind, k);
        if k in Kinds(slots[..n]) {
          var i :| 0 <= i < n && slots[..n][i].value.Some? && slots[..n][i].kind == k;
          assert slots[i].value.Some? && slots[i].kind == k;
        }
        if i :| 0 <= i < |slots| && slots[i].value.Some? && slots[i].kind == k {
          if i < n {
            assert slots[..n][i].value.Some? && slots[..n][i].kind == k;
          }
        }
      }
    }
  }

  function CountAll<T>(ks: seq<u8>, slots: seq<Slot<T>>): nat {
    if ks == [] then 0 else Sum(OfKind(ks[0]), slots) + CountAll(ks[1..], slots)
  }

  lemma {:induction false} CountAllStep<T>(ks: seq<u8>, slots: seq<Slot<T>>)
    requires Ascending(ks) && slots != []
    ensures var s := slots[|slots| - 1];
            CountAll(ks, slots) == CountAll(ks, slots[..|slots| - 1]) + if s.value.Some? && s.kind in ks then 1 else 0
  {
    if ks != [] {
      CountAllStep(ks[1..], slots);
      var s := slots[|slots| - 1];
      assert s.kind in ks <==> s.kind == ks[0] || s.kind in ks[1..];
    }
  }

  lemma {:induction false} CountAllIsLive<T>(ks: seq<u8>, slots: seq<Slot<T>>)
    requires Ascending(ks)
    requires forall i :: 0 <= i < |slots| && slots[i].value.Some? ==> slots[i].kind in ks
    ensures CountAll(ks, slots) == Sum(Live, slots)
  {
    if slots == [] {
      NothingToCount(ks, slots);
    } else {
      var init := slots[..|slots| - 1];
      forall i | 0 <= i < |init| && init[i].value.Some? ensures init[i].kind in ks {
        assert init[i] == slots[i];
      }
      CountAllIsLive(ks, init);
      CountAllStep(ks, slots);
    }
  }

  lemma {:induction false} NothingToCount<T>(ks: seq<u8>, slots: seq<Slot<T>>)
    requires slots == []
    ensures CountAll(ks, slots) == 0
  {
    if ks != [] {
      NothingToCount(ks[1..], slots);
    }
  }

  /** `kinds` is strictly ascending, holds exactly the live kinds, and its counts add up to `len`. */
  lemma KindsPartitionLen<T>(t: RawTable<T>)
    requires Valid(t)
    ensures Ascending(Kinds(t.slots))
    ensures forall k: u8 :: k in Kinds(t.slots) <==> |WithKind(Entries(t), k)| > 0
    ensures forall k: u8 :: |WithKind(Entries(t), k)| == Sum(OfKind(k), t.slots)
    ensures CountAll(Kinds(t.slots), t.slots) == t.live
  {
    KindsExact(t.slots);
    CountAllIsLive(Kinds(t.slots), t.slots);
    forall k: u8
      ensures |WithKind(Entries(t), k)| == Sum(OfKind(k), t.slots)
      ensures k in Kinds(t.slots) <==> Sum(OfKind(k), t.slots) > 0
    {
      WithKindCount(t.slots, k, 0);
      OfKindPositive(t.slots, k);
    }
  }

  lemma {:induction false} OfKindPositive<T>(slots: seq<Slot<T>>, k: u8)
    ensures Sum(OfKind(k), slots) > 0 <==>
            exists i :: 0 <= i < |slots| && slots[i].value.Some? && slots[i].kind == k
  {
    if slots != [] {
      var n := |slots| - 1;
      OfKindPositive(slots[..n], k);
      if Sum(OfKind(k), slots[..n]) > 0 {
        var i :| 0 <= i < n && slots[..n][i].value.Some? && slots[..n][i].kind == k;
        assert slots[i].value.Some? && slots[i].kind == k;
      }
      if i :| 0 <= i < n && slots[i].value.Some? && slots[i].kind == k {
        assert slots[..n][i].value.Some? && slots[..n][i].kind == k;
      }
    }
  }
}
