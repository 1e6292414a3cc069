/** Whole runs of a handle table from empty, with the history of handles issued and slots freed. */
module TableRuns {
  import opened Prelude
  import opened Handles
  import opened Tables
  import opened TableInvariant
  import opened TableBulk

  datatype Op<!T> =
    | DoInsert(kind: u8, value: T)
    | DoTryInsert(kind: u8, value: T, maxLive: nat)
    | DoUpdate(h: Handle, value: T)
    | DoRemove(h: Handle)
    | DoClear
    | DoRetain(keep: (Handle, T) -> bool)

  /** The table after an operation, the handles it issued (at most one), and the slots it freed. */
  datatype Effect<T> = Effect(table: Table<T>, issued: seq<Handle>, freed: int)

  function Apply<T>(t: Table<T>, op: Op<T>): Effect<T> {
    match op
    case DoInsert(kind, value) =>
      var r := Insert(t, kind, value);
      Effect(r.table, [r.handle], 0)
    case DoTryInsert(kind, value, maxLive) =>
      var (t', h) := TryInsert(t, kind, value, maxLive);
      Effect(t', if h.Some? then [h.value] else [], 0)
    case DoUpdate(h, value) => Effect(Update(t, h, value), [], 0)
    case DoRemove(h) =>
      var (t', v) := Remove(t, h);
      Effect(t', [], if v.Some? then 1 else 0)
    case DoClear => Effect(Clear(t), [], t.live)
    case DoRetain(keep) =>
      var r := Retain(t, keep);
      Effect(r.table, [], r.removed)
  }

  /** `peak` is the largest live count seen at any point of the run. */
  datatype History<T> = History(table: Table<T>, issued: seq<Handle>, frees: int, peak: int)

  function Extend<T>(r: History<T>, op: Op<T>): History<T> {
    var e := Apply(r.table, op);
    History(e.table, r.issued + e.issued, r.frees + e.freed, Max(r.peak, e.table.live))
  }

  function Run<T>(ops: seq<Op<T>>): History<T> {
    if ops == [] then History(Empty(), [], 0, 0)
    else Extend(Run(ops[..|ops| - 1]), ops[|ops| - 1])
  }

  /** Everything the history and the table owe each other. */
  ghost predicate Accounted<T>(r: History<T>) {
    && Valid(r.table)
    && (forall k :: 0 <= k < |r.issued| ==> StageOf(r.table, r.issued[k].Id()) != Unissued)
    && (forall j, k :: 0 <= j < k < |r.issued| ==> r.issued[j].Id() != r.issued[k].Id())
    && r.frees == Sum(Spent, r.table.slots)
    && |r.issued| == r.frees + r.table.live
    && r.table.live <= r.peak
    && |r.table.slots| <= r.peak + Sum(Retired, r.table.slots)
  }

  /** What one operation does to the table, whatever the operation. */
  ghost predicate Steps<T>(t: Table<T>, e: Effect<T>) {
    && Valid(e.table)
    && Later(t, e.table)
    && Sum(Spent, e.table.slots) == Sum(Spent, t.slots) + e.freed
    && |e.issued| <= 1
    && (e.issued != [] ==>
          && StageOf(t, e.issued[0].Id()) == Unissued
          && StageOf(e.table, e.issued[0].Id()) == Resolving)
    && e.table.live == t.live + |e.issued| - e.freed
    && (|e.table.slots| > |t.slots| ==> |e.table.slots| == e.table.live + Sum(Retired, e.table.slots))
    && Sum(Retired, t.slots) <= Sum(Retired, e.table.slots)
  }

  lemma InsertSteps<T>(t: Table<T>, kind: u8, value: T)
    requires Valid(t) && |Insert(t, kind, value).table.slots| <= MAX_SLOTS
    ensures Steps(t, Apply(t, DoInsert(kind, value)))
  {
    InsertValid(t, kind, value);
    InsertStages(t, kind, value);
    var t' := Insert(t, kind, value).table;
    CapacityPartition(t');
    if t.free != [] {
      var i := t.free[|t.free| - 1];
      SumUpdate(Spent, t.slots, i, t'.slots[i]);
      SumUpdate(Retired, t.slots, i, t'.slots[i]);
    } else {
      SumAppend(Spent, t.slots, t'.slots[|t.slots|]);
      SumAppend(Retired, t.slots, t'.slots[|t.slots|]);
    }
  }

  lemma {:induction false} RetainRetires<T>(t: Table<T>, keep: (Handle, T) -> bool, i: nat)
    requires i <= |t.slots|
    requires forall j :: 0 <= j < |t.slots| ==> SlotOk(t.slots[j])
    ensures Sum(Retired, t.slots) <= Sum(Retired, RetainFrom(t, keep, i).table.slots)
    decreases |t.slots| - i
  {
    if i < |t.slots| {
      SumUpdate(Retired, t.slots, i, Freed(t.slots[i]));
      RetainRetires(if Rejects(keep, t.slots, i) then FreeSlot(t, i) else t, keep, i + 1);
    }
  }

  lemma RetainSteps<T>(t: Table<T>, keep: (Handle, T) -> bool)
    requires Valid(t)
    ensures Steps(t, Apply(t, DoRetain(keep)))
  {
    RetainValid(t, keep);
    RetainRetires(t, keep, 0);
  }

  lemma RemoveSteps<T>(t: Table<T>, h: Handle)
    requires Valid(t)
    ensures Steps(t, Apply(t, DoRemove(h)))
  {
    hide ValidOwing, Contents, Sum;
    RemoveValid(t, h);
    RemoveRefines(t, h);
    if Get(t, h).Some? {
      SumUpdate(Retired, t.slots, h.slot, Freed(t.slots[h.slot]));
    }
  }

  lemma UpdateSteps<T>(t: Table<T>, h: Handle, value: T)
    requires Valid(t)
    ensures Steps(t, Apply(t, DoUpdate(h, value)))
  {
    hide Valid, ValidOwing, Contents, Sum;
    UpdateValid(t, h, value);
    if Get(t, h).Some? {
      UpdateRefines(t, h, value);
      SumUpdate(Retired, t.slots, h.slot, t.slots[h.slot].(value := Some(value)));
    }
  }

  lemma ApplySteps<T(!new)>(t: Table<T>, op: Op<T>)
    requires Valid(t) && |Apply(t, op).table.slots| <= MAX_SLOTS
    ensures Steps(t, Apply(t, op))
  {
    match op
    case DoInsert(kind, value) => InsertSteps(t, kind, value);
    case DoTryInsert(kind, value, maxLive) =>
      if t.live < maxLive {
        InsertSteps(t, kind, value);
      }
    case DoUpdate(h, value) => UpdateSteps(t, h, value);
    case DoRemove(h) => RemoveSteps(t, h);
    case DoClear =>
      var none := (h: Handle, v: T) => false;
      ClearIsRetainNothing(t, none);
      RetainSteps(t, none);
    case DoRetain(keep) => RetainSteps(t, keep);
  }

  lemma ApplyGrows<T>(t: Table<T>, op: Op<T>)
    ensures |t.slots| <= |Apply(t, op).table.slots| <= |t.slots| + 1
    ensures |Apply(t, op).issued| <= 1
    ensures |Apply(t, op).table.slots| == |t.slots| + 1 ==>
              |Apply(t, op).issued| == 1 && Apply(t, op).issued[0].Id() == ObjectId(Truncate32(|t.slots|), 0)
  {
  }

  lemma RunStep<T>(ops: seq<Op<T>>, n: nat)
    requires n < |ops|
    ensures Run(ops[..n + 1]) == Extend(Run(ops[..n]), ops[n])
  {
    assert ops[..n + 1][..n] == ops[..n];
  }

  lemma {:induction false} RunGrows<T>(ops: seq<Op<T>>, m: nat, n: nat)
    requires m <= n <= |ops|
    ensures |Run(ops[..m]).table.slots| <= |Run(ops[..n]).table.slots|
    ensures Run(ops[..m]).issued <= Run(ops[..n]).issued
    decreases n
  {
    hide Apply, Run;
    if m < n {
      RunGrows(ops, m, n - 1);
      RunStep(ops, n - 1);
      ApplyGrows(Run(ops[..n - 1]).table, ops[n - 1]);
    }
  }

  lemma AccountedStep<T(!new)>(r: History<T>, op: Op<T>)
    requires Accounted(r) && |Extend(r, op).table.slots| <= MAX_SLOTS
    ensures Accounted(Extend(r, op))
  {
    ApplySteps(r.table, op);
    ApplyGrows(r.table, op);
    var e := Apply(r.table, op);
    var issued := r.issued + e.issued;
    forall k | 0 <= k < |issued| ensures StageOf(e.table, issued[k].Id()) != Unissued {
      if k < |r.issued| {
        assert Rank(StageOf(r.table, issued[k].Id())) <= Rank(StageOf(e.table, issued[k].Id()));
      }
    }
  }

  lemma EmptyAccounted<T>()
    ensures Accounted(Run<T>([]))
  {
    hide Valid;
    EmptyValid<T>();
  }

  lemma {:induction false} RunAccounted<T(!new)>(ops: seq<Op<T>>, n: nat)
    requires n <= |ops| && |Run(ops[..n]).table.slots| <= MAX_SLOTS
    ensures Accounted(Run(ops[..n]))
  {
    hide Apply, Accounted;
    if n == 0 {
      EmptyAccounted<T>();
    } else {
      RunGrows(ops, n - 1, n);
      RunAccounted(ops, n - 1);
      RunStep(ops, n - 1);
      AccountedStep(Run(ops[..n - 1]), ops[n - 1]);
    }
  }

  /** The operation that appended slot `i`, and the position of the handle it issued. */
  lemma {:induction false} SlotBirth<T>(ops: seq<Op<T>>, n: nat, i: nat) returns (b: nat)
    requires n <= |ops| && i < |Run(ops[..n]).table.slots|
    ensures b < n && |Run(ops[..b]).table.slots| == i
    ensures var k := |Run(ops[..b]).issued|;
            && k < |Run(ops[..b + 1]).issued|
            && Run(ops[..b + 1]).issued[k].Id() == ObjectId(Truncate32(i), 0)
  {
    RunStep(ops, n - 1);
    ApplyGrows(Run(ops[..n - 1]).table, ops[n - 1]);
    if i < |Run(ops[..n - 1]).table.slots| {
      b := SlotBirth(ops, n - 1, i);
    } else {
      b := n - 1;
    }
  }

  ghost predicate AllDistinct(issued: seq<Handle>) {
    forall j, k :: 0 <= j < k < |issued| ==> issued[j].Id() != issued[k].Id()
  }

  /** Past 2^32 slots the truncated slot number 0 comes round again, at generation 0. */
  lemma OverflowReissues<T>(ops: seq<Op<T>>)
    requires |Run(ops).table.slots| > MAX_SLOTS
    ensures !AllDistinct(Run(ops).issued)
  {
    hide Apply;
    assert ops[..|ops|] == ops;
    var a := SlotBirth(ops, |ops|, 0);
    var b := SlotBirth(ops, |ops|, MAX_SLOTS);
    if b <= a {
      RunGrows(ops, b, a);
      assert false;
    }
    RunGrows(ops, a + 1, b);
    RunGrows(ops, a + 1, |ops|);
    RunGrows(ops, b + 1, |ops|);
    var j, k := |Run(ops[..a]).issued|, |Run(ops[..b]).issued|;
    var issued := Run(ops).issued;
    assert issued[j] == Run(ops[..a + 1]).issued[j];
    assert issued[k] == Run(ops[..b + 1]).issued[k];
    assert j < k && issued[j].Id() == issued[k].Id();
  }

  /** Nothing but inserts: capacity grows by one each time, so runs of every capacity exist. */
  lemma {:induction false} ManyInserts<T>(n: nat, kind: u8, value: T) returns (ops: seq<Op<T>>)
    ensures |ops| == n && forall i :: 0 <= i < n ==> ops[i] == DoInsert(kind, value)
    ensures |Run(ops).table.slots| == n && Run(ops).table.free == []
  {
    ops := [];
    if n > 0 {
      var before := ManyInserts(n - 1, kind, value);
      ops := before + [DoInsert(kind, value)];
      assert ops[..n - 1] == before;
    }
  }

  /** The failing run: 2^32 + 1 inserts into an empty table issue an identity twice. */
  lemma {:induction false} ReissuingRun<T>(kind: u8, value: T) returns (ops: seq<Op<T>>)
    ensures |ops| == MAX_SLOTS + 1 && forall i :: 0 <= i < |ops| ==> ops[i] == DoInsert(kind, value)
    ensures !AllDistinct(Run(ops).issued)
  {
    hide Run, AllDistinct;
    ops := ManyInserts(MAX_SLOTS + 1, kind, value);
    OverflowReissues(ops);
  }

  /**
   Over every run from an empty table, no two handles handed out name the same object exactly when
   the capacity is still at most 2^32; distinct identities also have distinct raw values.
   */
  lemma {:induction false} NoHandleReissued<T(!new)>(ops: seq<Op<T>>)
    ensures AllDistinct(Run(ops).issued) <==> |Run(ops).table.slots| <= MAX_SLOTS
    ensures |Run(ops).table.slots| <= MAX_SLOTS ==>
              forall j, k :: 0 <= j < k < |Run(ops).issued| ==> ToRaw(Run(ops).issued[j]) != ToRaw(Run(ops).issued[k])
  {
    hide Apply;
    assert ops[..|ops|] == ops;
    if |Run(ops).table.slots| <= MAX_SLOTS {
      RunAccounted(ops, |ops|);
      var issued := Run(ops).issued;
      forall j, k | 0 <= j < k < |issued| ensures ToRaw(issued[j]) != ToRaw(issued[k]) {
        RawBijection(issued[j], 0);
        RawBijection(issued[k], 0);
      }
    } else {
      OverflowReissues(ops);
    }
  }

  lemma {:induction false} RunLater<T(!new)>(ops: seq<Op<T>>, m: nat, n: nat, id: ObjectId)
    requires m <= n <= |ops| && |Run(ops[..n]).table.slots| <= MAX_SLOTS
    ensures Rank(StageOf(Run(ops[..m]).table, id)) <= Rank(StageOf(Run(ops[..n]).table, id))
    decreases n
  {
    hide Apply;
    if m < n {
      RunGrows(ops, n - 1, n);
      RunAccounted(ops, n - 1);
      RunStep(ops, n - 1);
      ApplySteps(Run(ops[..n - 1]).table, ops[n - 1]);
      RunLater(ops, m, n - 1, id);
    }
  }

  /** A handle that resolved once and does not any more never resolves again, retired slot or not. */
  lemma {:induction false} FreedNeverResolves<T(!new)>(ops: seq<Op<T>>, l: nat, m: nat, n: nat, h: Handle)
    requires l <= m <= n <= |ops|
    ensures |Run(ops[..n]).table.slots| <= MAX_SLOTS && Get(Run(ops[..l]).table, h).Some? && Get(Run(ops[..m]).table, h).None?
            ==> Get(Run(ops[..n]).table, h).None?
  {
    if |Run(ops[..n]).table.slots| <= MAX_SLOTS {
      RunGrows(ops, m, n);
      RunLater(ops, l, m, h.Id());
      RunLater(ops, m, n, h.Id());
      forall i | i in {l, m, n} ensures Get(Run(ops[..i]).table, h).Some? <==> StageOf(Run(ops[..i]).table, h.Id()) == Resolving {
        ContentsAt(Run(ops[..i]).table, h.Id());
        GetIsLookup(Run(ops[..i]).table, h);
      }
    }
  }

  /**
   The books of a run: generations plus retirements count the frees, inserts are frees plus live
   entries, each retirement costs 2^24 frees, and capacity is bounded by the peak and the retired.
   */
  lemma RunAccounting<T(!new)>(ops: seq<Op<T>>)
    requires |Run(ops).table.slots| <= MAX_SLOTS
    ensures var r := Run(ops);
            var retired := Sum(Retired, r.table.slots);
            && Sum(Spent, r.table.slots) == r.frees
            && |r.issued| == r.frees + r.table.live
            && retired * 0x100_0000 <= r.frees
            && |r.table.slots| <= r.peak + retired
            && r.table.live + |r.table.free| + retired == |r.table.slots|
  {
    assert ops[..|ops|] == ops;
    RunAccounted(ops, |ops|);
    SlotsPartition(Run(ops).table.slots);
    CapacityPartition(Run(ops).table);
  }
}
