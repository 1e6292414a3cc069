/** Saturating call statistics and the per-API registry. */
module Obs {
  import opened Prelude

  datatype CallStats = CallStats(calls: u64, bytesOut: u64, bytesIn: u64)

  const ZERO_STATS := CallStats(0, 0, 0)

  /** Lengths are `usize` widened to `u64`, which is exact on the 64-bit targets. */
  function Saturate(a: u64, n: nat): u64 {
    if a + n <= U64_MAX then a + n else U64_MAX
  }

  function Counted(s: CallStats, bytesOut: nat, bytesIn: nat): CallStats {
    CallStats(Saturate(s.calls, 1), Saturate(s.bytesOut, bytesOut), Saturate(s.bytesIn, bytesIn))
  }

  function Merge(s: CallStats, o: CallStats): CallStats {
    CallStats(SaturatingAdd64(s.calls, o.calls), SaturatingAdd64(s.bytesOut, o.bytesOut), SaturatingAdd64(s.bytesIn, o.bytesIn))
  }

  /** One recorded call. */
  datatype CallRecord = CallRecord(api: string, bytesOut: nat, bytesIn: nat)

  type Registry = map<string, CallStats>

  function Lookup(m: Registry, api: string): CallStats {
    if api in m then m[api] else ZERO_STATS
  }

  function RecordOne(m: Registry, r: CallRecord): Registry {
    m[r.api := Counted(Lookup(m, r.api), r.bytesOut, r.bytesIn)]
  }

  function RecordAll(m: Registry, log: seq<CallRecord>): Registry {
    if log == [] then m else RecordOne(RecordAll(m, log[..|log| - 1]), log[|log| - 1])
  }

  // True sums, which never saturate

  datatype Totals = Totals(calls: nat, bytesOut: nat, bytesIn: nat) {
    function Plus(o: Totals): Totals {
      Totals(calls + o.calls, bytesOut + o.bytesOut, bytesIn + o.bytesIn)
    }

    function Clamp(): CallStats {
      CallStats(Min(calls, U64_MAX), Min(bytesOut, U64_MAX), Min(bytesIn, U64_MAX))
    }
  }

  function Weight(r: CallRecord): Totals {
    Totals(1, r.bytesOut, r.bytesIn)
  }

  function SumOf(log: seq<CallRecord>, api: string): Totals {
    if log == [] then Totals(0, 0, 0)
    else
      var before := SumOf(log[..|log| - 1], api);
      if log[|log| - 1].api == api then before.Plus(Weight(log[|log| - 1])) else before
  }

  function GrandSum(log: seq<CallRecord>): Totals {
    if log == [] then Totals(0, 0, 0) else GrandSum(log[..|log| - 1]).Plus(Weight(log[|log| - 1]))
  }

  predicate Mentions(log: seq<CallRecord>, api: string) {
    exists i :: 0 <= i < |log| && log[i].api == api
  }

  /** Each API's counters are its true sums clamped at 2^64 - 1, and only mentioned APIs have an entry. */
  lemma {:induction false} RegistryConserves(log: seq<CallRecord>, api: string)
    ensures Lookup(RecordAll(map[], log), api) == SumOf(log, api).Clamp()
    ensures api in RecordAll(map[], log) <==> Mentions(log, api)
  {
    if log != [] {
      var n := |log| - 1;
      RegistryConserves(log[..n], api);
      if Mentions(log[..n], api) {
        var i :| 0 <= i < n && log[..n][i].api == api;
        assert log[i].api == api;
      }
      if i :| 0 <= i < |log| && log[i].api == api {
        assert i < n ==> log[..n][i].api == api;
      }
    }
  }

  // Totals over any order of the entries

  /** Merges the entries one by one in the given order. */
  function MergeEntries(m: Registry, order: seq<string>): CallStats
    requires forall k :: k in order ==> k in m
  {
    if order == [] then ZERO_STATS
    else
      assert order[|order| - 1] in order;
      Merge(MergeEntries(m, order[..|order| - 1]), m[order[|order| - 1]])
  }

  ghost predicate Listing(order: seq<string>, keys: set<string>) {
    && (forall i, j :: 0 <= i < j < |order| ==> order[i] != order[j])
    && (forall k :: k in order <==> k in keys)
  }

  function SumOver(log: seq<CallRecord>, order: seq<string>): Totals {
    if order == [] then Totals(0, 0, 0) else SumOver(log, order[..|order| - 1]).Plus(SumOf(log, order[|order| - 1]))
  }

  lemma {:induction false} MergedEntries(log: seq<CallRecord>, order: seq<string>)
    requires forall k :: k in order ==> k in RecordAll(map[], log)
    ensures MergeEntries(RecordAll(map[], log), order) == SumOver(log, order).Clamp()
  {
    if order != [] {
      var n := |order| - 1;
      MergedEntries(log, order[..n]);
      assert order[n] in order;
      RegistryConserves(log, order[n]);
    }
  }

  lemma {:induction false} OneMoreRecord(log: seq<CallRecord>, order: seq<string>)
    requires log != []
    requires forall i, j :: 0 <= i < j < |order| ==> order[i] != order[j]
    ensures var last := log[|log| - 1];
            SumOver(log, order) ==
            if last.api in order then SumOver(log[..|log| - 1], order).Plus(Weight(last)) else SumOver(log[..|log| - 1], order)
  {
    if order != [] {
      var n := |order| - 1;
      OneMoreRecord(log, order[..n]);
      assert order == order[..n] + [order[n]];
    }
  }

  lemma {:induction false} NoRecords(order: seq<string>)
    ensures SumOver([], order) == Totals(0, 0, 0)
  {
    if order != [] {
      NoRecords(order[..|order| - 1]);
    }
  }

  lemma {:induction false} SumOverListing(log: seq<CallRecord>, order: seq<string>)
    requires forall i, j :: 0 <= i < j < |order| ==> order[i] != order[j]
    requires forall i :: 0 <= i < |log| ==> log[i].api in order
    ensures SumOver(log, order) == GrandSum(log)
  {
    if log == [] {
      NoRecords(order);
    } else {
      SumOverListing(log[..|log| - 1], order);
      OneMoreRecord(log, order);
    }
  }

  /** Merging the entries in any order gives the grand sum of everything recorded, clamped. */
  lemma {:induction false} TotalInAnyOrder(log: seq<CallRecord>, order: seq<string>)
    requires Listing(order, RecordAll(map[], log).Keys)
    ensures MergeEntries(RecordAll(map[], log), order) == GrandSum(log).Clamp()
  {
    forall i | 0 <= i < |log| ensures log[i].api in order {
      RegistryConserves(log, log[i].api);
    }
    MergedEntries(log, order);
    SumOverListing(log, order);
  }

  // Rows in name order

  /** Lexicographic order of names. */
  predicate AtMost(a: string, b: string) {
    a == "" || (b != "" && (a[0] < b[0] || (a[0] == b[0] && AtMost(a[1..], b[1..]))))
  }

  lemma {:induction false} AtMostIsTotal(a: string, b: string)
    ensures AtMost(a, b) || AtMost(b, a)
    ensures AtMost(a, b) && AtMost(b, a) ==> a == b
  {
    if a != "" && b != "" && a[0] == b[0] {
      AtMostIsTotal(a[1..], b[1..]);
      assert a == [a[0]] + a[1..] && b == [b[0]] + b[1..];
    }
  }

  lemma {:induction false} AtMostIsTransitive(a: string, b: string, c: string)
    ensures AtMost(a, b) && AtMost(b, c) ==> AtMost(a, c)
  {
    if a != "" && b != "" && c != "" {
      AtMostIsTransitive(a[1..], b[1..], c[1..]);
    }
  }

  predicate Ascending(order: seq<string>) {
    forall i, j :: 0 <= i < j < |order| ==> order[i] != order[j] && AtMost(order[i], order[j])
  }

  function Names(rows: seq<(string, CallStats)>): seq<string> {
    seq(|rows|, i requires 0 <= i < |rows| => rows[i].0)
  }

  /** A name put in its place among names already in order. */
  function Place(order: seq<string>, name: string): seq<string> {
    if order == [] || AtMost(name, order[0]) then [name] + order
    else [order[0]] + Place(order[1..], name)
  }

  lemma {:induction false} PlaceAscends(order: seq<string>, name: string)
    requires Ascending(order) && name !in order
    ensures Ascending(Place(order, name))
    ensures forall k :: k in Place(order, name) <==> k in order || k == name
  {
    hide AtMost;
    if order != [] {
      AtMostIsTotal(name, order[0]);
      if AtMost(name, order[0]) {
        forall j | 0 <= j < |order| ensures AtMost(name, order[j]) {
          AtMostIsTransitive(name, order[0], order[j]);
        }
      } else {
        var rest := Place(order[1..], name);
        PlaceAscends(order[1..], name);
        assert order == [order[0]] + order[1..];
        forall j | 0 <= j < |rest| ensures rest[j] != order[0] && AtMost(order[0], rest[j]) {
          assert rest[j] in order[1..] || rest[j] == name;
        }
      }
    }
  }

  /** There is one ascending listing of a set of names, so the report does not depend on the map's own order. */
  lemma {:induction false} AscendingListingUnique(a: seq<string>, b: seq<string>, keys: set<string>)
    requires Ascending(a) && Ascending(b) && Listing(a, keys) && Listing(b, keys)
    ensures a == b
    decreases |a|
  {
    hide AtMost;
    EmptyListing(a, keys);
    EmptyListing(b, keys);
    if a != [] {
      assert a[0] in keys && b[0] in keys;
      assert a[0] in b && b[0] in a;
      AtMostIsTotal(a[0], b[0]);
      assert a[0] == b[0];
      TailListing(a, keys);
      TailListing(b, keys);
      AscendingListingUnique(a[1..], b[1..], keys - {a[0]});
      assert a == [a[0]] + a[1..] && b == [b[0]] + b[1..];
    }
  }

  lemma EmptyListing(order: seq<string>, keys: set<string>)
    requires Listing(order, keys)
    ensures order == [] <==> keys == {}
  {
    if order != [] {
      assert order[0] in keys;
    }
  }

  lemma TailListing(order: seq<string>, keys: set<string>)
    requires order != [] && Listing(order, keys)
    ensures Listing(order[1..], keys - {order[0]})
  {
    assert order == [order[0]] + order[1..];
  }

  class ObsRegistry {
    var inner: Registry
    ghost var log: seq<CallRecord>

    /** The entries are what the calls recorded since the last reset amount to. */
    ghost predicate Valid()
      reads this
    {
      inner == RecordAll(map[], log)
    }

    constructor ()
      ensures Valid() && log == []
    {
      inner, log := map[], [];
    }

    method Record(api: string, bytesOut: nat, bytesIn: nat)
      requires Valid()
      modifies this
      ensures Valid() && log == old(log) + [CallRecord(api, bytesOut, bytesIn)]
    {
      var stats := if api in inner then inner[api] else ZERO_STATS;
      inner := inner[api := Counted(stats, bytesOut, bytesIn)];
      log := log + [CallRecord(api, bytesOut, bytesIn)];
      assert log[..|log| - 1] == old(log);
    }

    method Reset()
      modifies this
      ensures Valid() && log == [] && inner == map[]
    {
      inner, log := map[], [];
    }

    /** Merges the entries in whatever order the hash map yields them. */
    method Total() returns (total: CallStats)
      requires Valid()
      ensures total == GrandSum(log).Clamp()
    {
      total := ZERO_STATS;
      var keys := inner.Keys;
      ghost var order: seq<string> := [];
      while keys != {}
        invariant keys <= inner.Keys
        invariant Listing(order, inner.Keys - keys)
        invariant total == MergeEntries(inner, order)
        decreases keys
      {
        var k :| k in keys;
        total := Merge(total, inner[k]);
        ghost var before := order;
        order := order + [k];
        assert order[..|before|] == before;
        keys := keys - {k};
      }
      assert inner.Keys - keys == inner.Keys;
      TotalInAnyOrder(log, order);
    }

    /** The rows by API name, ascending, each with that API's true sums clamped. */
    method SnapshotSorted() returns (rows: seq<(string, CallStats)>)
      requires Valid()
      ensures Ascending(Names(rows)) && Listing(Names(rows), inner.Keys)
      ensures forall i :: 0 <= i < |rows| ==> rows[i].1 == SumOf(log, rows[i].0).Clamp() == Lookup(inner, rows[i].0)
    {
      var order := [];
      var keys := inner.Keys;
      while keys != {}
        invariant keys <= inner.Keys
        invariant Ascending(order) && Listing(order, inner.Keys - keys)
        decreases keys
      {
        var k :| k in keys;
        PlaceAscends(order, k);
        order := Place(order, k);
        keys := keys - {k};
      }
      assert inner.Keys - keys == inner.Keys;
      var m := inner;
      rows := seq(|order|, i requires 0 <= i < |order| => (order[i], Lookup(m, order[i])));
      assert Names(rows) == order;
      forall i | 0 <= i < |rows| ensures rows[i].1 == SumOf(log, rows[i].0).Clamp() {
        RegistryConserves(log, rows[i].0);
      }
    }

    /** The rows of the report and its TOTAL row, merged from those rows. */
    method Report() returns (rows: seq<(string, CallStats)>, total: CallStats)
      requires Valid()
      ensures Ascending(Names(rows)) && Listing(Names(rows), inner.Keys)
      ensures forall i :: 0 <= i < |rows| ==> rows[i].1 == SumOf(log, rows[i].0).Clamp()
      ensures total == GrandSum(log).Clamp()
    {
      rows := SnapshotSorted();
      total := ZERO_STATS;
      ghost var order := Names(rows);
      var i := 0;
      while i < |rows|
        invariant i <= |rows|
        invariant total == MergeEntries(inner, order[..i])
      {
        ghost var done := order[..i + 1];
        assert done[..i] == order[..i] && done[i] == order[i];
        total := Merge(total, rows[i].1);
        i := i + 1;
      }
      assert order[..i] == order;
      TotalInAnyOrder(log, order);
    }
  }
}
