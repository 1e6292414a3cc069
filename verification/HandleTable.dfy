/** The handle table as an object: its fields change in place, and each method is tied to `Tables`. */
module HandleTables {
  import opened Prelude
  import opened Handles
  import opened Tables
  import opened TableInvariant
  import opened TableBulk

  datatype Stats = Stats(live: int, retired: nat, capacity: nat, kinds: seq<u8>)

  class HandleTable<T> {
    var slots: seq<Slot<T>>
    var free: seq<u32>
    var live: int

    ghost predicate InRange()
      reads this
    {
      FreeInRange(RawTable(slots, free, live))
    }

    ghost function Model(): Table<T>
      reads this
      requires InRange()
    {
      RawTable(slots, free, live)
    }

    constructor ()
      ensures InRange() && Model() == Empty()
    {
      slots, free, live := [], [], 0;
    }

    method Insert(kind: u8, value: T) returns (h: Handle)
      requires InRange()
      modifies this
      ensures InRange()
      ensures Inserted(Model(), h) == Tables.Insert(old(Model()), kind, value)
    {
      live := live + 1;
      if free != [] {
        var i := free[|free| - 1];
        free := free[..|free| - 1];
        slots := slots[i := slots[i].(kind := kind, value := Some(value))];
        h := Pack(kind, slots[i].generation, i);
      } else {
        var i := Truncate32(|slots|);
        slots := slots + [Slot(0, kind, Some(value), false)];
        h := Pack(kind, 0, i);
      }
    }

    method TryInsert(kind: u8, value: T, maxLive: nat) returns (r: Option<Handle>)
      requires InRange()
      modifies this
      ensures InRange()
      ensures (Model(), r) == Tables.TryInsert(old(Model()), kind, value, maxLive)
    {
      if live < maxLive {
        var h := Insert(kind, value);
        r := Some(h);
      } else {
        r := None;
      }
    }

    method Get(h: Handle) returns (r: Option<T>)
      requires InRange()
      ensures r == Tables.Get(Model(), h)
    {
      if h.slot >= |slots| || slots[h.slot].generation != h.generation {
        return None;
      }
      r := slots[h.slot].value;
    }

    /** `get_mut` followed by a write of `value` through the reference it returns. */
    method Update(h: Handle, value: T) returns (resolved: bool)
      requires InRange()
      modifies this
      ensures InRange() && Model() == Tables.Update(old(Model()), h, value)
      ensures resolved <==> Tables.Get(old(Model()), h).Some?
    {
      if h.slot >= |slots| || slots[h.slot].generation != h.generation || slots[h.slot].value.None? {
        return false;
      }
      slots := slots[h.slot := slots[h.slot].(value := Some(value))];
      resolved := true;
    }

    method Remove(h: Handle) returns (r: Option<T>)
      requires InRange()
      modifies this
      ensures InRange() && (Model(), r) == Tables.Remove(old(Model()), h)
    {
      if h.slot >= |slots| || slots[h.slot].generation != h.generation {
        return None;
      }
      r := slots[h.slot].value;
      if r.None? {
        return;
      }
      live := live - 1;
      Vacate(h.slot);
    }

    /** Empties one slot and does the generation and free-list bookkeeping. */
    method Vacate(i: nat)
      requires InRange() && i < |slots|
      modifies this`slots, this`free
      ensures InRange() && Model() == FreeSlot(old(Model()), i)
    {
      var s := slots[i];
      if s.generation >= GENERATION_MAX {
        slots := slots[i := s.(value := None, retired := true)];
      } else {
        slots := slots[i := s.(value := None, generation := s.generation + 1)];
        free := free + [Truncate32(i)];
      }
    }

    method Clear()
      requires InRange()
      modifies this
      ensures InRange() && Model() == Tables.Clear(old(Model()))
    {
      var i := 0;
      while i < |slots|
        invariant InRange() && i <= |slots|
        invariant ClearFrom(Model(), i) == ClearFrom(old(Model()), 0)
        decreases |slots| - i
      {
        ghost var before := slots;
        if slots[i].value.Some? {
          Vacate(i);
        }
        assert |slots| == |before|;
        i := i + 1;
      }
      live := 0;
    }

    method Retain(keep: (Handle, T) -> bool) returns (removed: nat)
      requires InRange()
      modifies this
      ensures InRange() && Retained(Model(), removed) == Tables.Retain(old(Model()), keep)
    {
      removed := 0;
      var i := 0;
      while i < |slots|
        invariant InRange() && i <= |slots|
        invariant var done := RetainFrom(old(Model()), keep, 0);
                  var rest := RetainFrom(Model(), keep, i);
                  rest.table == done.table && removed + rest.removed == done.removed
        decreases |slots| - i
      {
        ghost var before := slots;
        var s := slots[i];
        if s.value.Some? && !keep(Pack(s.kind, s.generation, Truncate32(i)), s.value.value) {
          Vacate(i);
          removed := removed + 1;
        }
        assert |slots| == |before|;
        i := i + 1;
      }
      live := live - removed;
    }

    /** The listing that `iter` yields. */
    method Iter() returns (entries: seq<(Handle, T)>)
      requires InRange()
      ensures entries == Entries(Model())
    {
      entries := [];
      var i := 0;
      while i < |slots|
        invariant i <= |slots|
        invariant entries + EntriesFrom(slots, i) == Entries(Model())
      {
        if slots[i].value.Some? {
          var h := Pack(slots[i].kind, slots[i].generation, Truncate32(i));
          ghost var rest := EntriesFrom(slots, i + 1);
          assert entries + ([(h, slots[i].value.value)] + rest) == entries + [(h, slots[i].value.value)] + rest;
          entries := entries + [(h, slots[i].value.value)];
        }
        i := i + 1;
      }
    }

    method CountByKind(kind: u8) returns (n: nat)
      requires InRange()
      ensures n == Sum(OfKind(kind), Model().slots)
    {
      n := 0;
      var i := 0;
      while i < |slots|
        invariant i <= |slots|
        invariant n == Sum(OfKind(kind), slots[..i])
      {
        assert slots[..i + 1] == slots[..i] + [slots[i]];
        SumAppend(OfKind(kind), slots[..i], slots[i]);
        if slots[i].value.Some? && slots[i].kind == kind {
          n := n + 1;
        }
        i := i + 1;
      }
      assert slots[..i] == slots;
    }

    method RetiredCount() returns (n: nat)
      requires InRange()
      ensures n == Sum(Retired, Model().slots)
    {
      n := 0;
      var i := 0;
      while i < |slots|
        invariant i <= |slots|
        invariant n == Sum(Retired, slots[..i])
      {
        assert slots[..i + 1] == slots[..i] + [slots[i]];
        SumAppend(Retired, slots[..i], slots[i]);
        if slots[i].retired {
          n := n + 1;
        }
        i := i + 1;
      }
      assert slots[..i] == slots;
    }

    /** The listing that `iter_kind` yields. */
    method IterKind(kind: u8) returns (entries: seq<(Handle, T)>)
      requires InRange()
      ensures entries == WithKind(Entries(Model()), kind)
    {
      entries := [];
      var i := 0;
      while i < |slots|
        invariant i <= |slots|
        invariant entries + WithKind(EntriesFrom(slots, i), kind) == WithKind(Entries(Model()), kind)
      {
        EntriesStep(slots, kind, i);
        if slots[i].kind == kind && slots[i].value.Some? {
          var e := (Pack(slots[i].kind, slots[i].generation, Truncate32(i)), slots[i].value.value);
          assert entries + ([e] + WithKind(EntriesFrom(slots, i + 1), kind)) ==
                 entries + [e] + WithKind(EntriesFrom(slots, i + 1), kind);
          entries := entries + [e];
        }
        i := i + 1;
      }
      assert entries + [] == entries;
    }

    /** Collects the kinds of the live slots, sorted and without repeats. */
    method LiveKinds() returns (kinds: seq<u8>)
      requires InRange()
      ensures kinds == Kinds(slots)
    {
      kinds := [];
      var i := 0;
      while i < |slots|
        invariant i <= |slots|
        invariant kinds == Kinds(slots[..i])
      {
        assert slots[..i + 1][..i] == slots[..i];
        if slots[i].value.Some? {
          kinds := WithinSorted(kinds, slots[i].kind);
        }
        i := i + 1;
      }
      assert slots[..i] == slots;
    }

    /** A snapshot is exact: live entries, retired slots, capacity, and the kinds that have live entries. */
    method Snapshot() returns (s: Stats)
      requires InRange() && Valid(Model())
      ensures s.live == |Entries(Model())| && s.retired == Sum(Retired, slots) && s.capacity == |slots|
      ensures s.live + |free| + s.retired == s.capacity
      ensures Ascending(s.kinds) && CountAll(s.kinds, slots) == s.live
      ensures forall k: u8 :: k in s.kinds <==> |WithKind(Entries(Model()), k)| > 0
    {
      var retired := RetiredCount();
      var kinds := LiveKinds();
      s := Stats(live, retired, |slots|, kinds);
      CapacityPartition(Model());
      IterListsContents(Model());
      KindsPartitionLen(Model());
    }
  }
}
