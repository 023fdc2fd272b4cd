/** What a collector emits over a whole run of dumps. */
module CheckpointRuns {
  import opened Checkpoint
  import opened CheckpointEngine

  /** The total that `rows` report for counter `c` of flow `k`. */
  function Emitted<K(==), V>(rows: seq<Row<K, V>>, k: K, c: nat): int {
    if rows == [] then 0
    else
      var last := rows[|rows| - 1];
      Emitted(rows[..|rows| - 1], k, c) + if last.key == k then At(last.delta, c) else 0
  }

  function BaselineAfter<K(==), V>(dumps: seq<seq<Entry<K, V>>>): map<K, Counters> {
    if dumps == [] then map[] else Aggregate(dumps[|dumps| - 1])
  }

  /** The rows of a run: each dump is compared with the one just before it. */
  function RunRows<K(==), V>(dumps: seq<seq<Entry<K, V>>>): seq<Row<K, V>> {
    if dumps == [] then []
    else
      var before := dumps[..|dumps| - 1];
      RunRows(before) + Rows(BaselineAfter(before), dumps[|dumps| - 1])
  }

  /** The collector's main loop over the dumps it is given: the state it carries from
      one checkpoint to the next is exactly the aggregate of the last dump. */
  method Collect<K(==), V>(dumps: seq<seq<Entry<K, V>>>) returns (engine: Engine<K, V>, rows: seq<Row<K, V>>)
    ensures fresh(engine) && engine.previous == BaselineAfter(dumps)
    ensures rows == RunRows(dumps)
  {
    engine := new Engine();
    rows := [];
    for i := 0 to |dumps|
      invariant fresh(engine) && engine.previous == BaselineAfter(dumps[..i])
      invariant rows == RunRows(dumps[..i])
    {
      assert dumps[..i + 1][..i] == dumps[..i];
      var new_rows := engine.ReadFlows(dumps[i]);
      rows := rows + new_rows;
    }
    assert dumps[..|dumps|] == dumps;
  }

  // ---------------------------------------------------------------- one checkpoint

  lemma {:induction false} EmittedConcat<K, V>(a: seq<Row<K, V>>, b: seq<Row<K, V>>, k: K, c: nat)
    ensures Emitted(a + b, k, c) == Emitted(a, k, c) + Emitted(b, k, c)
  {
    if b == [] {
      assert a + b == a;
    } else {
      var n := |b| - 1;
      assert (a + b)[..|a + b| - 1] == a + b[..n];
      EmittedConcat(a, b[..n], k, c);
    }
  }

  /** What flow `k` gains from one dump to the next: nothing unless both list it. */
  function Gain<K(==), V>(before: seq<Entry<K, V>>, now: seq<Entry<K, V>>, k: K, c: nat): int {
    if Listed(before, k) && Listed(now, k) then Pos(At(SumFor(now, k), c) - At(SumFor(before, k), c)) else 0
  }

  lemma GrowthAt(before: Counters, now: Counters, c: nat)
    ensures At(Growth(before, now), c) == Pos(At(now, c) - At(before, c))
    ensures !Grew(before, now) ==> Pos(At(now, c) - At(before, c)) == 0
  {
    if c < |Growth(before, now)| {
      assert Growth(before, now)[c] == Pos(At(now, c) - At(before, c));
    }
  }

  /** The identities but the last. */
  lemma AllButLast<K, V>(dump: seq<Entry<K, V>>, ids: seq<K>, k: K)
    requires ids != [] && AllListed(dump, ids) && Distinct(ids)
    ensures AllListed(dump, ids[..|ids| - 1]) && Distinct(ids[..|ids| - 1])
    ensures Listed(dump, ids[|ids| - 1]) && ids[|ids| - 1] !in ids[..|ids| - 1]
    ensures k in ids <==> k in ids[..|ids| - 1] || k == ids[|ids| - 1]
  {
    var n := |ids| - 1;
    assert ids == ids[..n] + [ids[n]] && ids[n] in ids;
  }

  /** What the row of one identity adds for counter `c` of flow `k`. */
  function GainOver<K(==)>(prev: map<K, Counters>, x: K, now: Counters, k: K, c: nat): int {
    if x == k && k in prev then Pos(At(now, c) - At(prev[k], c)) else 0
  }

  lemma EmittedByOneRow<K, V>(prev: map<K, Counters>, x: K, now: Counters, first: Entry<K, V>, k: K, c: nat)
    ensures Emitted(RowIfGrown(prev, x, now, first), k, c) == GainOver(prev, x, now, k, c)
  {
    var tail := RowIfGrown(prev, x, now, first);
    if x in prev {
      GrowthAt(prev[x], now, c);
    }
    assert tail != [] ==> tail[..0] == [];
  }

  lemma EmittedOnward<K, V>(prev: map<K, Counters>, dump: seq<Entry<K, V>>, ids: seq<K>, k: K, c: nat)
    requires ids != [] && AllListed(dump, ids) && AllListed(dump, ids[..|ids| - 1])
    ensures Emitted(RowsFor(prev, dump, ids), k, c)
         == Emitted(RowsFor(prev, dump, ids[..|ids| - 1]), k, c)
            + GainOver(prev, ids[|ids| - 1], SumFor(dump, ids[|ids| - 1]), k, c)
  {
    var n := |ids| - 1;
    var x := ids[n];
    assert x in ids;
    EmittedByOneRow(prev, x, SumFor(dump, x), FirstEntry(dump, x), k, c);
    EmittedConcat(RowsFor(prev, dump, ids[..n]), RowIfGrown(prev, x, SumFor(dump, x), FirstEntry(dump, x)), k, c);
  }

  lemma {:induction false} EmittedByRowsFor<K, V>(
    prev: map<K, Counters>, dump: seq<Entry<K, V>>, ids: seq<K>, k: K, c: nat)
    requires AllListed(dump, ids) && Distinct(ids)
    ensures Emitted(RowsFor(prev, dump, ids), k, c) == if k in ids then GainOver(prev, k, SumFor(dump, k), k, c) else 0
  {
    if ids != [] {
      AllButLast(dump, ids, k);
      EmittedByRowsFor(prev, dump, ids[..|ids| - 1], k, c);
      EmittedOnward(prev, dump, ids, k, c);
    }
  }

  lemma EmittedByRows<K, V>(prev: map<K, Counters>, now: seq<Entry<K, V>>, k: K, c: nat)
    ensures Emitted(Rows(prev, now), k, c) ==
            if Listed(now, k) && k in prev then Pos(At(SumFor(now, k), c) - At(prev[k], c)) else 0
  {
    IdentitiesAreTheListed(now);
    EmittedByRowsFor(prev, now, Identities(now), k, c);
  }

  /** A checkpoint emits, for each flow, the growth of each counter and nothing else. */
  lemma EmittedByOneCheckpoint<K, V>(before: seq<Entry<K, V>>, now: seq<Entry<K, V>>, k: K, c: nat)
    ensures Emitted(Rows(Aggregate(before), now), k, c) == Gain(before, now, k, c)
    ensures Emitted(Rows(map[], now), k, c) == 0
  {
    BaselineIsTheSum(before, k);
    EmittedByRows(Aggregate(before), now, k, c);
    EmittedByRows(map[], now, k, c);
  }

  lemma BaselineIsTheSum<K, V>(dump: seq<Entry<K, V>>, k: K)
    ensures k in Aggregate(dump) <==> Listed(dump, k)
    ensures k in Aggregate(dump) ==> Aggregate(dump)[k] == SumFor(dump, k)
  {
    IdentitiesAreTheListed(dump);
  }

  ghost predicate ExactRow<K, V>(prev: map<K, Counters>, dump: seq<Entry<K, V>>, r: Row<K, V>) {
    && Listed(dump, r.key)
    && r.key in prev && Grew(prev[r.key], SumFor(dump, r.key))
    && r.delta == Growth(prev[r.key], SumFor(dump, r.key))
    && r.first == FirstEntry(dump, r.key)
  }

  ghost predicate ExactRows<K, V>(prev: map<K, Counters>, dump: seq<Entry<K, V>>, ids: seq<K>, rows: seq<Row<K, V>>) {
    && (forall r :: r in rows ==> r.key in ids && ExactRow(prev, dump, r))
    && (forall i, j :: 0 <= i < j < |rows| ==> rows[i].key != rows[j].key)
    && (forall k :: k in ids && k in prev && Listed(dump, k) && Grew(prev[k], SumFor(dump, k)) ==>
          Row(k, Growth(prev[k], SumFor(dump, k)), FirstEntry(dump, k)) in rows)
  }

  lemma {:induction false} RowsForAreExact<K, V>(prev: map<K, Counters>, dump: seq<Entry<K, V>>, ids: seq<K>)
    requires AllListed(dump, ids) && Distinct(ids)
    ensures ExactRows(prev, dump, ids, RowsFor(prev, dump, ids))
  {
    if ids != [] {
      var n := |ids| - 1;
      var k := ids[n];
      assert ids == ids[..n] + [k] && k !in ids[..n];
      RowsForAreExact(prev, dump, ids[..n]);
      var rows := RowsFor(prev, dump, ids[..n]);
      var tail := RowIfGrown(prev, k, SumFor(dump, k), FirstEntry(dump, k));
      assert RowsFor(prev, dump, ids) == rows + tail;
      assert forall r :: r in rows + tail ==> r in rows || r in tail;
      forall i | 0 <= i < |rows| ensures rows[i].key != k {
        assert rows[i] in rows;
      }
    }
  }

  /** A checkpoint has a row for exactly the flows that had a baseline, are still
      listed and grew; the row carries the exact growth, and no flow has two. */
  lemma RowsAreExact<K, V>(prev: map<K, Counters>, dump: seq<Entry<K, V>>)
    ensures ExactRows(prev, dump, Identities(dump), Rows(prev, dump))
    ensures forall k :: k in prev && Listed(dump, k) && Grew(prev[k], SumFor(dump, k)) ==>
              Row(k, Growth(prev[k], SumFor(dump, k)), FirstEntry(dump, k)) in Rows(prev, dump)
  {
    IdentitiesAreTheListed(dump);
    RowsForAreExact(prev, dump, Identities(dump));
  }

  // ----------------------------------------------------------------- telescoping

  function SumOfGains<K(==), V>(dumps: seq<seq<Entry<K, V>>>, k: K, c: nat): int {
    if |dumps| < 2 then 0
    else
      var n := |dumps| - 1;
      SumOfGains(dumps[..n], k, c) + Gain(dumps[n - 1], dumps[n], k, c)
  }

  /** Over any run, what is emitted for a flow is the sum of the positive parts over
      the consecutive dumps that both list it. */
  lemma {:induction false} Telescoping<K, V>(dumps: seq<seq<Entry<K, V>>>, k: K, c: nat)
    ensures Emitted(RunRows(dumps), k, c) == SumOfGains(dumps, k, c)
  {
    if dumps != [] {
      var n := |dumps| - 1;
      Telescoping(dumps[..n], k, c);
      EmittedConcat(RunRows(dumps[..n]), Rows(BaselineAfter(dumps[..n]), dumps[n]), k, c);
      if n > 0 {
        EmittedByOneCheckpoint(dumps[n - 1], dumps[n], k, c);
      } else {
        EmittedByOneCheckpoint([], dumps[n], k, c);
      }
    }
  }

  /** While a flow stays in the map and counter `c` never falls, the run emits exactly
      its last reading minus its first. */
  lemma {:induction false} SteadyStretch<K, V>(dumps: seq<seq<Entry<K, V>>>, k: K, c: nat)
    requires dumps != [] && forall i :: 0 <= i < |dumps| ==> Listed(dumps[i], k)
    requires forall i :: 0 < i < |dumps| ==> At(SumFor(dumps[i - 1], k), c) <= At(SumFor(dumps[i], k), c)
    ensures Emitted(RunRows(dumps), k, c) == At(SumFor(dumps[|dumps| - 1], k), c) - At(SumFor(dumps[0], k), c)
  {
    var n := |dumps| - 1;
    Telescoping(dumps, k, c);
    if n > 0 {
      SteadyStretch(dumps[..n], k, c);
      Telescoping(dumps[..n], k, c);
    }
  }

  lemma {:induction false} GainsAcrossGap<K, V>(
    a: seq<seq<Entry<K, V>>>, gap: seq<Entry<K, V>>, b: seq<seq<Entry<K, V>>>, k: K, c: nat)
    requires !Listed(gap, k)
    ensures SumOfGains(a + [gap] + b, k, c) == SumOfGains(a, k, c) + SumOfGains(b, k, c)
  {
    var all := a + [gap] + b;
    if b == [] {
      assert all == a + [gap] && all[..|all| - 1] == a;
    } else {
      var n := |b| - 1;
      assert all[..|all| - 1] == a + [gap] + b[..n];
      GainsAcrossGap(a, gap, b[..n], k, c);
    }
  }

  /** A dump without the flow splits the run in two: the part after it starts from a
      new seed, and the gap itself contributes nothing. */
  lemma VanishAndReturn<K, V>(a: seq<seq<Entry<K, V>>>, gap: seq<Entry<K, V>>, b: seq<seq<Entry<K, V>>>, k: K, c: nat)
    requires !Listed(gap, k)
    ensures Emitted(RunRows(a + [gap] + b), k, c) == Emitted(RunRows(a), k, c) + Emitted(RunRows(b), k, c)
  {
    Telescoping(a + [gap] + b, k, c);
    Telescoping(a, k, c);
    Telescoping(b, k, c);
    GainsAcrossGap(a, gap, b, k, c);
  }

  // ------------------------------------------------------------ non-interference

  /** The dump of a map that holds only flow `k`. */
  function Only<K(==), V>(dump: seq<Entry<K, V>>, k: K): seq<Entry<K, V>> {
    if dump == [] then []
    else
      var last := dump[|dump| - 1];
      var rest := Only(dump[..|dump| - 1], k);
      if last.key == k then rest + [last] else rest
  }

  function RowsOf<K(==), V>(rows: seq<Row<K, V>>, k: K): seq<Row<K, V>> {
    if rows == [] then []
    else
      var last := rows[|rows| - 1];
      var rest := RowsOf(rows[..|rows| - 1], k);
      if last.key == k then rest + [last] else rest
  }

  lemma {:induction false} RowsOfConcat<K, V>(a: seq<Row<K, V>>, b: seq<Row<K, V>>, k: K)
    ensures RowsOf(a + b, k) == RowsOf(a, k) + RowsOf(b, k)
  {
    if b == [] {
      assert a + b == a;
    } else {
      var n := |b| - 1;
      assert (a + b)[..|a + b| - 1] == a + b[..n];
      RowsOfConcat(a, b[..n], k);
    }
  }

  lemma {:induction false} OnlyLists<K, V>(dump: seq<Entry<K, V>>, k: K)
    ensures Listed(Only(dump, k), k) == Listed(dump, k)
    ensures Identities(Only(dump, k)) == if Listed(dump, k) then [k] else []
    ensures Only(dump, k) != [] <==> Listed(dump, k)
  {
    if dump != [] {
      var n := |dump| - 1;
      OnlyLists(dump[..n], k);
      assert forall i :: 0 <= i < n ==> dump[..n][i] == dump[i];
      assert Listed(dump, k) == (Listed(dump[..n], k) || dump[n].key == k);
      if dump[n].key == k {
        var only := Only(dump, k);
        assert only[..|only| - 1] == Only(dump[..n], k) && only[|only| - 1] == dump[n];
      }
    }
  }

  lemma {:induction false} OnlySums<K, V>(dump: seq<Entry<K, V>>, k: K)
    ensures SumFor(Only(dump, k), k) == SumFor(dump, k)
  {
    if dump != [] {
      var n := |dump| - 1;
      OnlySums(dump[..n], k);
      if dump[n].key == k {
        var only := Only(dump, k);
        assert only[..|only| - 1] == Only(dump[..n], k) && only[|only| - 1] == dump[n];
      }
    }
  }

  lemma {:induction false} OnlyFirst<K, V>(dump: seq<Entry<K, V>>, k: K)
    requires Listed(dump, k)
    ensures Listed(Only(dump, k), k) && FirstEntry(Only(dump, k), k) == FirstEntry(dump, k)
    decreases |dump|
  {
    var n := |dump| - 1;
    var init, last := dump[..n], dump[n];
    assert dump == init + [last];
    OnlyLists(init, k);
    if Listed(init, k) {
      OnlyFirst(init, k);
    }
    if last.key == k {
      FirstOfExtended(init, last, k);
      FirstOfExtended(Only(init, k), last, k);
    } else if !Listed(init, k) {
      NotListedBefore(dump, k);
    }
  }

  lemma FirstOfExtended<K, V>(init: seq<Entry<K, V>>, last: Entry<K, V>, k: K)
    requires last.key == k
    ensures Listed(init + [last], k)
    ensures FirstEntry(init + [last], k) == if Listed(init, k) then FirstEntry(init, k) else last
  {
    var all := init + [last];
    assert all[|all| - 1] == last && all[..|all| - 1] == init;
  }

  lemma {:induction false} RowsOfRowsFor<K, V>(prev: map<K, Counters>, dump: seq<Entry<K, V>>, ids: seq<K>, k: K)
    requires AllListed(dump, ids) && Distinct(ids)
    ensures RowsOf(RowsFor(prev, dump, ids), k) ==
            if k in ids then RowIfGrown(prev, k, SumFor(dump, k), FirstEntry(dump, k)) else []
  {
    if ids != [] {
      var n := |ids| - 1;
      var x := ids[n];
      assert ids == ids[..n] + [x] && x !in ids[..n];
      RowsOfRowsFor(prev, dump, ids[..n], k);
      var tail := RowIfGrown(prev, x, SumFor(dump, x), FirstEntry(dump, x));
      RowsOfConcat(RowsFor(prev, dump, ids[..n]), tail, k);
      assert tail != [] ==> tail[..0] == [];
    }
  }

  lemma OneCheckpointApart<K, V>(prev: map<K, Counters>, alone: map<K, Counters>, dump: seq<Entry<K, V>>, k: K)
    requires k in prev <==> k in alone
    requires k in prev ==> prev[k] == alone[k]
    ensures RowsOf(Rows(prev, dump), k) == Rows(alone, Only(dump, k))
  {
    IdentitiesAreTheListed(dump);
    OnlyLists(dump, k);
    RowsOfRowsFor(prev, dump, Identities(dump), k);
    if Listed(dump, k) {
      RowsOfOneFlow(alone, dump, k);
    } else {
      assert Only(dump, k) == [];
    }
  }

  lemma RowsOfOneFlow<K, V>(alone: map<K, Counters>, dump: seq<Entry<K, V>>, k: K)
    requires Listed(dump, k)
    ensures Rows(alone, Only(dump, k)) == RowIfGrown(alone, k, SumFor(dump, k), FirstEntry(dump, k))
  {
    var only := Only(dump, k);
    IdentitiesAreTheListed(only);
    OnlyLists(dump, k);
    OnlySums(dump, k);
    OnlyFirst(dump, k);
    var ids := Identities(only);
    assert ids == [k] && ids[..0] == [] && ids[0] == k;
    assert RowsFor(alone, only, ids[..0]) == [];
  }

  function OnlyEach<K(==), V>(dumps: seq<seq<Entry<K, V>>>, k: K): seq<seq<Entry<K, V>>> {
    if dumps == [] then [] else OnlyEach(dumps[..|dumps| - 1], k) + [Only(dumps[|dumps| - 1], k)]
  }

  /** Removing every other flow from every dump of a run leaves the rows of flow `k`
      exactly as they were: flows never mix, whatever they have in common. */
  lemma {:induction false} NonInterference<K, V>(dumps: seq<seq<Entry<K, V>>>, k: K)
    ensures RowsOf(RunRows(dumps), k) == RunRows(OnlyEach(dumps, k))
    ensures |OnlyEach(dumps, k)| == |dumps|
    ensures dumps != [] ==> OnlyEach(dumps, k)[|dumps| - 1] == Only(dumps[|dumps| - 1], k)
  {
    if dumps != [] {
      var n := |dumps| - 1;
      NonInterference(dumps[..n], k);
      var prev, alone := BaselineAfter(dumps[..n]), BaselineAfter(OnlyEach(dumps[..n], k));
      if n > 0 {
        IdentitiesAreTheListed(dumps[n - 1]);
        OnlyLists(dumps[n - 1], k);
        OnlySums(dumps[n - 1], k);
        assert alone == Aggregate(Only(dumps[n - 1], k));
      }
      OneCheckpointApart(prev, alone, dumps[n], k);
      RowsOfConcat(RunRows(dumps[..n]), Rows(prev, dumps[n]), k);
      assert OnlyEach(dumps, k)[..n] == OnlyEach(dumps[..n], k);
    }
  }
}
