/** Which slot an insert takes, and what a quota bounds. */
module TableReuse {
  import opened Prelude
  import opened Handles
  import opened Tables
  import opened TableInvariant
  import opened TableBulk
  import opened TableRuns

  // Freed slots come back newest first

  /** The handles whose slots can be used again once freed: all but those of the last generation. */
  function Reusable(hs: seq<Handle>): seq<Handle> {
    if hs == [] then []
    else (if hs[0].generation < GENERATION_MAX then [hs[0]] else []) + Reusable(hs[1..])
  }

  lemma {:induction false} ReusableAt(hs: seq<Handle>, k: nat)
    requires k < |Reusable(hs)|
    ensures Reusable(hs)[k] in hs && Reusable(hs)[k].generation < GENERATION_MAX
  {
    var first := if hs[0].generation < GENERATION_MAX then 1 else 0;
    if k >= first {
      ReusableAt(hs[1..], k - first);
    }
  }

  function SlotsOf(hs: seq<Handle>): seq<u32> {
    seq(|hs|, i requires 0 <= i < |hs| => hs[i].slot)
  }

  /** All resolve, each in a slot of its own. */
  predicate Freeable<T>(t: RawTable<T>, hs: seq<Handle>) {
    && (forall i :: 0 <= i < |hs| ==> Get(t, hs[i]).Some?)
    && (forall i, j :: 0 <= i < j < |hs| ==> hs[i].slot != hs[j].slot)
  }

  /** The slot of a freed handle as `remove` leaves it. */
  lemma RemovedSlot<T>(t: Table<T>, h: Handle)
    requires Valid(t) && Get(t, h).Some?
    ensures var t' := Remove(t, h).0;
            && Valid(t') && |t'.slots| == |t.slots|
            && t'.free == t.free + SlotsOf(Reusable([h]))
            && (h.generation < GENERATION_MAX ==> t'.slots[h.slot].generation == h.generation + 1)
            && forall i :: 0 <= i < |t.slots| && i != h.slot ==> t'.slots[i] == t.slots[i]
  {
    RemoveValid(t, h);
    assert [h][1..] == [];
  }

  lemma StillFreeable<T>(t: Table<T>, hs: seq<Handle>)
    requires Valid(t) && hs != [] && Freeable(t, hs)
    ensures Freeable(Remove(t, hs[0]).0, hs[1..])
  {
    RemovedSlot(t, hs[0]);
  }

  lemma SlotsOfConcat(a: seq<Handle>, b: seq<Handle>)
    ensures SlotsOf(a + b) == SlotsOf(a) + SlotsOf(b)
  {
  }

  lemma ReusableStep(hs: seq<Handle>)
    requires hs != []
    ensures Reusable(hs) == Reusable([hs[0]]) + Reusable(hs[1..])
  {
    assert [hs[0]][1..] == [];
  }

  /** Freed slots are stacked in the order of the frees, each one generation up, retired ones left out. */
  lemma {:induction false} RemovalsStack<T>(t: Table<T>, hs: seq<Handle>)
    requires Valid(t) && Freeable(t, hs)
    ensures var t' := RemoveAll(t, hs);
            && Valid(t') && |t'.slots| == |t.slots|
            && t'.free == t.free + SlotsOf(Reusable(hs))
            && (forall i :: 0 <= i < |hs| && hs[i].generation < GENERATION_MAX ==>
                  t'.slots[hs[i].slot].generation == hs[i].generation + 1)
            && (forall i :: 0 <= i < |t.slots| && (forall k :: 0 <= k < |hs| ==> hs[k].slot != i) ==> t'.slots[i] == t.slots[i])
    decreases |hs|
  {
    hide Valid, Remove, Reusable;
    if hs == [] {
      NothingReusable();
      assert t.free + [] == t.free;
    } else {
      var t1 := Remove(t, hs[0]).0;
      RemovedSlot(t, hs[0]);
      StillFreeable(t, hs);
      RemovalsStack(t1, hs[1..]);
      ReusableStep(hs);
      SlotsOfConcat(Reusable([hs[0]]), Reusable(hs[1..]));
      var a, b := SlotsOf(Reusable([hs[0]])), SlotsOf(Reusable(hs[1..]));
      assert t.free + a + b == t.free + (a + b);
      var t' := RemoveAll(t, hs);
      forall k | 0 <= k < |hs[1..]| ensures hs[1..][k].slot != hs[0].slot {
        assert hs[1..][k] == hs[k + 1];
      }
      assert t'.slots[hs[0].slot] == t1.slots[hs[0].slot];
      forall i | 0 <= i < |hs| && hs[i].generation < GENERATION_MAX
        ensures t'.slots[hs[i].slot].generation == hs[i].generation + 1
      {
        if i > 0 {
          assert hs[i] == hs[1..][i - 1];
        }
      }
      forall i | 0 <= i < |t.slots| && (forall k :: 0 <= k < |hs| ==> hs[k].slot != i) ensures t'.slots[i] == t.slots[i] {
        assert hs[0].slot != i;
        assert forall k :: 0 <= k < |hs[1..]| ==> hs[1..][k] == hs[k + 1];
      }
    }
  }

  lemma OneReusable(h: Handle)
    ensures h.generation < GENERATION_MAX ==> Reusable([h]) == [h]
  {
    assert [h][1..] == [];
  }

  lemma NothingReusable()
    ensures Reusable([]) == [] && SlotsOf([]) == []
  {
  }

  /** Inserting the values one after the other under one kind: the table and the handles answered. */
  function InsertAll<T>(t: Table<T>, kind: u8, values: seq<T>): (r: (Table<T>, seq<Handle>))
    ensures |r.1| == |values|
    decreases |values|
  {
    if values == [] then (t, [])
    else
      var first := Insert(t, kind, values[0]);
      var (t', rest) := InsertAll(first.table, kind, values[1..]);
      (t', [first.handle] + rest)
  }

  /** As many inserts as the stack is high take its slots from the top down, at their present generations. */
  lemma {:induction false} InsertsUnstack<T>(t: Table<T>, kind: u8, values: seq<T>, base: seq<u32>, stack: seq<u32>, k: nat)
    requires t.free == base + stack && k < |values| <= |stack|
    requires forall i :: 0 <= i < |t.slots| ==> t.slots[i].generation <= GENERATION_MAX
    requires |t.slots| <= MAX_SLOTS
    ensures var i := stack[|stack| - 1 - k];
            i < |t.slots| && InsertAll(t, kind, values).1[k] == Handle(kind, t.slots[i].generation, i)
    decreases k
  {
    var i := stack[|stack| - 1];
    assert t.free[|t.free| - 1] == i;
    if k > 0 {
      var t1 := Insert(t, kind, values[0]).table;
      assert t1.free == base + stack[..|stack| - 1];
      InsertsUnstack(t1, kind, values[1..], base, stack[..|stack| - 1], k - 1);
    }
  }

  /**
   After removing `hs` in order, the next inserts answer their slots newest first, each one generation
   up, skipping those retired: the k-th insert takes the k-th last reusable one.
   */
  lemma {:induction false} InsertsReuseNewestFirst<T>(t: Table<T>, hs: seq<Handle>, kind: u8, values: seq<T>, k: nat)
    requires Valid(t) && Freeable(t, hs)
    requires k < |values| <= |Reusable(hs)|
    ensures var h := Reusable(hs)[|Reusable(hs)| - 1 - k];
            && h.generation < GENERATION_MAX
            && InsertAll(RemoveAll(t, hs), kind, values).1[k] == Handle(kind, h.generation + 1, h.slot)
  {
    hide Reusable, RemoveAll, InsertAll, FreeListExact, Sum, Get;
    var r, t' := Reusable(hs), RemoveAll(t, hs);
    RemovalsStack(t, hs);
    ReusableAt(hs, |r| - 1 - k);
    var i :| 0 <= i < |hs| && hs[i] == r[|r| - 1 - k];
    InsertsUnstack(t', kind, values, t.free, SlotsOf(r), k);
  }

  /** In particular a slot just freed is the next one used, under its next generation. */
  lemma {:induction false} NextInsertReuses<T>(t: Table<T>, h: Handle, kind: u8, value: T)
    requires Valid(t) && Get(t, h).Some? && h.generation < GENERATION_MAX
    ensures Insert(Remove(t, h).0, kind, value).handle == Handle(kind, h.generation + 1, h.slot)
  {
    hide Remove, Reusable, FreeListExact;
    RemovedSlot(t, h);
    OneReusable(h);
  }

  function HandlesOf<T>(entries: seq<(Handle, T)>): seq<Handle> {
    seq(|entries|, i requires 0 <= i < |entries| => entries[i].0)
  }

  lemma {:induction false} RejectedIn<T>(entries: seq<(Handle, T)>, keep: (Handle, T) -> bool, k: nat) returns (i: nat)
    requires k < |Rejected(entries, keep)|
    ensures i < |entries| && entries[i].0 == Rejected(entries, keep)[k]
    ensures forall l :: 0 <= l < k ==> Rejected(entries, keep)[l] in HandlesOf(entries[..i])
    decreases |entries|
  {
    var first := if keep(entries[0].0, entries[0].1) then 0 else 1;
    var rest := Rejected(entries[1..], keep);
    if k < first {
      i := 0;
    } else {
      var i' := RejectedIn(entries[1..], keep, k - first);
      i := i' + 1;
      var seen := HandlesOf(entries[..i]);
      assert seen == [entries[0].0] + HandlesOf(entries[1..][..i']);
      forall l | 0 <= l < k ensures Rejected(entries, keep)[l] in seen {
        if l >= first {
          assert Rejected(entries, keep)[l] == rest[l - first];
        }
      }
    }
  }

  lemma RejectedFreeable<T>(t: Table<T>, keep: (Handle, T) -> bool)
    requires Valid(t)
    ensures Freeable(t, Rejected(Entries(t), keep))
  {
    hide Valid, Contents, Lists, Entries, Rejected, Get;
    IterListsContents(t);
    var es, hs := Entries(t), Rejected(Entries(t), keep);
    forall k | 0 <= k < |hs| ensures Get(t, hs[k]).Some? {
      var i := RejectedIn(es, keep, k);
    }
    forall l, k | 0 <= l < k < |hs| ensures hs[l].slot != hs[k].slot {
      var i := RejectedIn(es, keep, k);
      var seen := HandlesOf(es[..i]);
      assert hs[l] in seen;
      var j :| 0 <= j < |seen| && seen[j] == hs[l];
    }
  }

  /** So it is after `retain`: the entries it rejected come back from the highest slot down. */
  lemma {:induction false} InsertsAfterRetain<T>(t: Table<T>, keep: (Handle, T) -> bool, kind: u8, values: seq<T>, k: nat)
    requires Valid(t)
    requires k < |values| <= |Reusable(Rejected(Entries(t), keep))|
    ensures var r := Reusable(Rejected(Entries(t), keep));
            var h := r[|r| - 1 - k];
            && h.generation < GENERATION_MAX
            && InsertAll(Retain(t, keep).table, kind, values).1[k] == Handle(kind, h.generation + 1, h.slot)
  {
    hide Valid, Entries, Rejected, Retain, InsertAll, Reusable, RemoveAll, Freeable;
    RejectedFreeable(t, keep);
    RetainIsRepeatedRemove(t, keep);
    InsertsReuseNewestFirst(t, Rejected(Entries(t), keep), kind, values, k);
  }

  /** And after `clear`: all that was live comes back from the highest slot down. */
  lemma {:induction false} InsertsAfterClear<T(!new)>(t: Table<T>, kind: u8, values: seq<T>, k: nat)
    requires Valid(t)
    requires k < |values| <= |Reusable(HandlesOf(Entries(t)))|
    ensures var r := Reusable(HandlesOf(Entries(t)));
            var h := r[|r| - 1 - k];
            && h.generation < GENERATION_MAX
            && InsertAll(Clear(t), kind, values).1[k] == Handle(kind, h.generation + 1, h.slot)
  {
    hide Valid, Entries, Retain, Clear, InsertAll, Reusable, Rejected, HandlesOf;
    var none := (h: Handle, v: T) => false;
    ClearIsRetainNothing(t, none);
    AllRejected(Entries(t), none);
    InsertsAfterRetain(t, none, kind, values, k);
  }

  lemma {:induction false} AllRejected<T(!new)>(entries: seq<(Handle, T)>, keep: (Handle, T) -> bool)
    requires forall h, v :: !keep(h, v)
    ensures Rejected(entries, keep) == HandlesOf(entries)
  {
    if entries != [] {
      AllRejected(entries[1..], keep);
    }
  }

  /** A new slot is appended only when there is nothing to reuse, and answered under generation 0. */
  lemma {:induction false} InsertAppendsWhenFull<T>(t: Table<T>, kind: u8, value: T)
    requires Valid(t) && |t.slots| < MAX_SLOTS
    ensures var r := Insert(t, kind, value);
            if |Entries(t)| + Sum(Retired, t.slots) == |t.slots|
            then |r.table.slots| == |t.slots| + 1 && r.handle == Handle(kind, 0, |t.slots|)
            else |r.table.slots| == |t.slots|
  {
    CapacityPartition(t);
    IterListsContents(t);
  }

  // Quotas

  /** A quota insert succeeds exactly below its quota of live entries; then it is an insert, else nothing. */
  lemma {:induction false} TryInsertExact<T>(t: Table<T>, kind: u8, value: T, maxLive: nat)
    requires Valid(t)
    ensures var (t', h) := TryInsert(t, kind, value, maxLive);
            && (h.Some? <==> |Entries(t)| < maxLive)
            && (h.Some? ==> Inserted(t', h.value) == Insert(t, kind, value))
            && (h.None? ==> t' == t)
  {
    hide Valid, Insert;
    IterListsContents(t);
  }

  /** All insertions go through quotas of at most `m`. */
  predicate UnderQuota<T>(ops: seq<Op<T>>, m: nat) {
    forall i :: 0 <= i < |ops| ==> !ops[i].DoInsert? && (ops[i].DoTryInsert? ==> ops[i].maxLive <= m)
  }

  lemma QuotaStep<T>(t: Table<T>, op: Op<T>, m: nat)
    requires !op.DoInsert? && (op.DoTryInsert? ==> op.maxLive <= m) && t.live <= m
    ensures Apply(t, op).table.live <= m
  {
    hide Retain;
    match op
    case DoClear => ClearedLive(t, 0);
    case DoRetain(keep) => RetainedLive(t, keep);
    case _ =>
  }

  lemma RetainedLive<T>(t: Table<T>, keep: (Handle, T) -> bool)
    ensures Retain(t, keep).table.live <= t.live
  {
  }

  lemma {:induction false} ClearedLive<T>(t: Table<T>, i: nat)
    requires i <= |t.slots|
    ensures ClearFrom(t, i).live == 0
    decreases |t.slots| - i
  {
    if i < |t.slots| {
      ClearedLive(if t.slots[i].value.None? then t else FreeSlot(t, i), i + 1);
    }
  }

  /** Over any run whose insertions keep to quotas of at most `m`, no more than `m` entries are ever live. */
  lemma {:induction false} QuotaBoundsLive<T>(ops: seq<Op<T>>, m: nat)
    requires UnderQuota(ops, m)
    ensures Run(ops).table.live <= m && Run(ops).peak <= m
  {
    hide Apply;
    if ops != [] {
      var n := |ops| - 1;
      QuotaBoundsLive(ops[..n], m);
      QuotaStep(Run(ops[..n]).table, ops[n], m);
    }
  }

  /** So storage stays within the quota plus one slot for every 2^24 frees. */
  lemma {:induction false} QuotaBoundsCapacity<T(!new)>(ops: seq<Op<T>>, m: nat)
    requires UnderQuota(ops, m) && |Run(ops).table.slots| <= MAX_SLOTS
    ensures |Entries(Run(ops).table)| <= m
    ensures |Run(ops).table.slots| <= m + Run(ops).frees / 0x100_0000
  {
    hide Run, Entries, Valid, StageOf;
    QuotaBoundsLive(ops, m);
    RunAccounting(ops);
    assert ops[..|ops|] == ops;
    RunAccounted(ops, |ops|);
    IterListsContents(Run(ops).table);
  }
}
