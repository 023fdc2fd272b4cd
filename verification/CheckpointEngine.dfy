module CheckpointEngine {
  import opened Checkpoint

  /** The mutable part of a collector: the baseline `previous` and the three loops
      that bring it from one dump to the next. */
  class Engine<K(==), V> {
    var previous: map<K, Counters>

    constructor ()
      ensures previous == map[]
    {
      previous := map[];
    }

    method ReadFlows(dump: seq<Entry<K, V>>) returns (rows: seq<Row<K, V>>)
      modifies this
      ensures previous == Aggregate(dump)
      ensures rows == Rows(old(previous), dump)
    {
      IdentitiesAreTheListed(dump);
      var totals, firstEntry, order := SumByIdentity(dump);
      DropStale(totals.Keys);
      rows := EmitGrown(totals, firstEntry, order);
      SameRowsWithoutStale(old(previous), dump, order);
    }

    /** First loop: sum the dump by identity.  A Python dict iterates in insertion
        order; `order` is that order. */
    static method SumByIdentity(dump: seq<Entry<K, V>>)
      returns (totals: map<K, Counters>, firstEntry: map<K, Entry<K, V>>, order: seq<K>)
      ensures order == Identities(dump) && totals == Aggregate(dump) && firstEntry == FirstEntries(dump)
    {
      totals, firstEntry, order := map[], map[], [];
      for i := 0 to |dump|
        invariant order == Identities(dump[..i])
        invariant totals == Aggregate(dump[..i])
        invariant firstEntry == FirstEntries(dump[..i])
      {
        var entry := dump[i];
        ghost var done := dump[..i];
        OneMoreEntry(done, entry);
        assert dump[..i + 1] == done + [entry];
        var acc := if entry.key in totals then totals[entry.key] else [];
        if entry.key !in totals {
          order := order + [entry.key];
        }
        totals := totals[entry.key := Add(acc, entry.counters)];
        if entry.key !in firstEntry {
          firstEntry := firstEntry[entry.key := entry];
        }
      }
      assert dump[..|dump|] == dump;
    }

    /** Second loop: forget the baselines of flows that are gone. */
    method DropStale(live: set<K>)
      modifies this
      ensures previous == map k | k in old(previous) && k in live :: old(previous)[k]
    {
      var stale := previous.Keys - live;
      while stale != {}
        invariant stale <= old(previous).Keys - live
        invariant previous == map k | k in old(previous) && (k in live || k in stale) :: old(previous)[k]
        decreases stale
      {
        var k :| k in stale;
        previous := previous - {k};
        stale := stale - {k};
      }
    }

    /** Third loop: replace each baseline, and emit a row for each flow that had one
        and grew. */
    method EmitGrown(totals: map<K, Counters>, firstEntry: map<K, Entry<K, V>>, order: seq<K>)
      returns (rows: seq<Row<K, V>>)
      requires totals.Keys == firstEntry.Keys == set k | k in order
      requires Distinct(order)
      modifies this
      ensures previous == old(previous) + totals
      ensures rows == GrownIn(old(previous), totals, firstEntry, order)
    {
      rows := [];
      for i := 0 to |order|
        invariant previous == Replaced(old(previous), totals, order[..i])
        invariant rows == GrownIn(old(previous), totals, firstEntry, order[..i])
      {
        var k := order[i];
        var counters := totals[k];
        var known := k in previous;
        var before := if known then previous[k] else [];
        ReplacedIs(old(previous), totals, order[..i]);
        assert k !in order[..i];
        assert order[..i + 1][..i] == order[..i];
        previous := previous[k := counters];
        if known && Grew(before, counters) {
          rows := rows + [Row(k, Growth(before, counters), firstEntry[k])];
        }
      }
      assert order[..|order|] == order;
      ReplacedIs(old(previous), totals, order);
    }
  }

  ghost function Replaced<K, V>(prev: map<K, V>, totals: map<K, V>, ids: seq<K>): map<K, V>
    requires forall k :: k in ids ==> k in totals
  {
    if ids == [] then prev
    else
      var k := ids[|ids| - 1];
      assert k in ids;
      Replaced(prev, totals, ids[..|ids| - 1])[k := totals[k]]
  }

  lemma {:induction false} ReplacedIs<K, V>(prev: map<K, V>, totals: map<K, V>, ids: seq<K>)
    requires forall k :: k in ids ==> k in totals
    ensures Replaced(prev, totals, ids).Keys == prev.Keys + set k | k in ids
    ensures forall k :: k in Replaced(prev, totals, ids) ==>
              Replaced(prev, totals, ids)[k] == if k in ids then totals[k] else prev[k]
  {
    if ids != [] {
      var n := |ids| - 1;
      assert ids == ids[..n] + [ids[n]];
      ReplacedIs(prev, totals, ids[..n]);
    }
  }

  ghost function FirstEntries<K, V>(dump: seq<Entry<K, V>>): map<K, Entry<K, V>> {
    IdentitiesAreTheListed(dump);
    map k | k in Identities(dump) :: FirstEntry(dump, k)
  }

  lemma OneMoreEntry<K, V>(dump: seq<Entry<K, V>>, entry: Entry<K, V>)
    ensures Identities(dump + [entry]) ==
            if entry.key in Identities(dump) then Identities(dump) else Identities(dump) + [entry.key]
    ensures Aggregate(dump + [entry]) ==
            Aggregate(dump)[
              entry.key := Add(if entry.key in Aggregate(dump) then Aggregate(dump)[entry.key] else [], entry.counters)]
    ensures FirstEntries(dump + [entry]) ==
            if entry.key in FirstEntries(dump) then FirstEntries(dump) else FirstEntries(dump)[entry.key := entry]
  {
    OneMoreIdentity(dump, entry);
    OneMoreSum(dump, entry);
    OneMoreFirst(dump, entry);
  }

  /** The baseline never outgrows the dump it was taken from. */
  lemma {:induction false} BaselineIsBounded<K, V>(dump: seq<Entry<K, V>>)
    ensures |Aggregate(dump)| <= |dump|
  {
    if dump != [] {
      var n := |dump| - 1;
      BaselineIsBounded(dump[..n]);
      OneMoreEntry(dump[..n], dump[n]);
      assert dump == dump[..n] + [dump[n]];
    }
  }

  lemma OneMoreIdentity<K, V>(dump: seq<Entry<K, V>>, entry: Entry<K, V>)
    ensures Identities(dump + [entry]) ==
            if entry.key in Identities(dump) then Identities(dump) else Identities(dump) + [entry.key]
  {
    var both := dump + [entry];
    assert both[..|both| - 1] == dump && both[|both| - 1] == entry;
  }

  lemma OneMoreSum<K, V>(dump: seq<Entry<K, V>>, entry: Entry<K, V>)
    ensures forall k :: (SumFor(dump + [entry], k) ==
              if k == entry.key then Add(SumFor(dump, k), entry.counters) else SumFor(dump, k))
    ensures entry.key !in Identities(dump) ==> SumFor(dump, entry.key) == []
  {
    var both := dump + [entry];
    assert both[..|both| - 1] == dump && both[|both| - 1] == entry;
    IdentitiesAreTheListed(dump);
    if entry.key !in Identities(dump) {
      NothingToSum(dump, entry.key);
    }
  }

  lemma OneMoreFirst<K, V>(dump: seq<Entry<K, V>>, entry: Entry<K, V>)
    ensures FirstEntries(dump + [entry]) ==
            if entry.key in FirstEntries(dump) then FirstEntries(dump) else FirstEntries(dump)[entry.key := entry]
  {
    var both := dump + [entry];
    assert both[..|both| - 1] == dump && both[|both| - 1] == entry;
    IdentitiesAreTheListed(dump);
    IdentitiesAreTheListed(both);
    OneMoreIdentity(dump, entry);
  }

  lemma {:induction false} NothingToSum<K, V>(dump: seq<Entry<K, V>>, k: K)
    requires !Listed(dump, k)
    ensures SumFor(dump, k) == []
  {
    if dump != [] {
      var n := |dump| - 1;
      assert forall i :: 0 <= i < n ==> dump[..n][i] == dump[i];
      NothingToSum(dump[..n], k);
    }
  }

  ghost function GrownIn<K, V>(
    prev: map<K, Counters>, totals: map<K, Counters>, firstEntry: map<K, Entry<K, V>>, ids: seq<K>)
    : seq<Row<K, V>>
    requires forall k :: k in ids ==> k in totals && k in firstEntry
  {
    if ids == [] then []
    else
      var k := ids[|ids| - 1];
      assert k in ids;
      GrownIn(prev, totals, firstEntry, ids[..|ids| - 1]) + RowIfGrown(prev, k, totals[k], firstEntry[k])
  }

  /** Dropping stale baselines changes no row: a stale flow is not in the dump. */
  lemma {:induction false} SameRowsWithoutStale<K, V>(prev: map<K, Counters>, dump: seq<Entry<K, V>>, ids: seq<K>)
    requires forall k :: k in ids ==> k in Identities(dump)
    ensures AllListed(dump, ids)
    ensures GrownIn(map k | k in prev && k in Aggregate(dump) :: prev[k], Aggregate(dump), FirstEntries(dump), ids)
         == RowsFor(prev, dump, ids)
  {
    IdentitiesAreTheListed(dump);
    if ids != [] {
      assert ids[|ids| - 1] in ids;
      SameRowsWithoutStale(prev, dump, ids[..|ids| - 1]);
    }
  }
}
