/** How a flow is spread over raw entries and CPUs, and the order in which the map
    lists them, make no difference to what is emitted. */
module CheckpointSplits {
  import opened Checkpoint
  import opened CheckpointEngine
  import opened CheckpointRuns

  lemma AddIsAbelian(a: Counters, b: Counters, c: Counters)
    ensures Add(a, b) == Add(b, a)
    ensures Add(Add(a, b), c) == Add(a, Add(b, c))
    ensures Add(a, []) == a
  {
    assert |Add(Add(a, b), c)| == |Add(a, Add(b, c))|;
    forall i | 0 <= i < |Add(Add(a, b), c)| ensures Add(Add(a, b), c)[i] == Add(a, Add(b, c))[i] {
      assert At(Add(a, b), i) == At(a, i) + At(b, i);
      assert At(Add(b, c), i) == At(b, i) + At(c, i);
    }
  }

  lemma {:induction false} SumOfConcat<K, V>(a: seq<Entry<K, V>>, b: seq<Entry<K, V>>, k: K)
    ensures SumFor(a + b, k) == Add(SumFor(a, k), SumFor(b, k))
  {
    if b == [] {
      assert a + b == a;
      AddIsAbelian(SumFor(a, k), [], []);
    } else {
      var n := |b| - 1;
      assert (a + b)[..|a + b| - 1] == a + b[..n];
      SumOfConcat(a, b[..n], k);
      AddIsAbelian(SumFor(a, k), SumFor(b[..n], k), b[n].counters);
    }
  }

  lemma ListedInConcat<K, V>(a: seq<Entry<K, V>>, b: seq<Entry<K, V>>, k: K)
    ensures Listed(a + b, k) <==> Listed(a, k) || Listed(b, k)
  {
    if Listed(a, k) {
      var i :| 0 <= i < |a| && a[i].key == k;
      assert (a + b)[i].key == k;
    }
    if Listed(b, k) {
      var i :| 0 <= i < |b| && b[i].key == k;
      assert (a + b)[|a| + i].key == k;
    }
    if Listed(a + b, k) {
      var i :| 0 <= i < |a + b| && (a + b)[i].key == k;
      assert if i < |a| then a[i].key == k else b[i - |a|].key == k;
    }
  }

  /** Two dumps that list the same flows with the same sums. */
  ghost predicate SameFlows<K(!new), V>(d: seq<Entry<K, V>>, e: seq<Entry<K, V>>) {
    forall k :: Listed(d, k) == Listed(e, k) && SumFor(d, k) == SumFor(e, k)
  }

  /** The last entry of `d`, found in its permutation `e`. */
  lemma FindLast<T>(d: seq<T>, e: seq<T>) returns (front: seq<T>, back: seq<T>)
    requires d != [] && multiset(d) == multiset(e)
    ensures e == front + [d[|d| - 1]] + back
    ensures multiset(d[..|d| - 1]) == multiset(front + back)
  {
    var x := d[|d| - 1];
    var init := d[..|d| - 1];
    assert d == init + [x];
    assert x in multiset(e);
    var j :| 0 <= j < |e| && e[j] == x;
    front, back := e[..j], e[j + 1..];
    assert e == front + [x] + back;
    assert multiset(d) == multiset(init) + multiset{x};
    assert multiset(front + back) == multiset(front) + multiset(back);
    assert multiset(e) == multiset(front + back) + multiset{x};
    assert multiset(init) == multiset(d) - multiset{x};
  }

  /** Reordering a dump keeps its flows. */
  lemma {:induction false} PermutedDump<K(!new), V>(d: seq<Entry<K, V>>, e: seq<Entry<K, V>>)
    requires multiset(d) == multiset(e)
    ensures SameFlows(d, e)
  {
    if d == [] {
      assert |multiset(e)| == 0;
    } else {
      var n := |d| - 1;
      var front, back := FindLast(d, e);
      PermutedDump(d[..n], front + back);
      forall k ensures Listed(d, k) == Listed(e, k) && SumFor(d, k) == SumFor(e, k) {
        MoveToEnd(front, d[n], back, k);
        assert d == d[..n] + [d[n]];
        SumOfConcat(d[..n], [d[n]], k);
        ListedInConcat(d[..n], [d[n]], k);
      }
    }
  }

  lemma MoveToEnd<K, V>(front: seq<Entry<K, V>>, x: Entry<K, V>, back: seq<Entry<K, V>>, k: K)
    ensures SumFor(front + [x] + back, k) == Add(SumFor(front + back, k), SumFor([x], k))
    ensures Listed(front + [x] + back, k) <==> Listed(front + back, k) || Listed([x], k)
  {
    SumOfConcat(front + [x], back, k);
    SumOfConcat(front, [x], k);
    SumOfConcat(front, back, k);
    AddIsAbelian(SumFor(front, k), SumFor([x], k), SumFor(back, k));
    AddIsAbelian(SumFor(back, k), SumFor([x], k), []);
    AddIsAbelian(SumFor(front, k), SumFor(back, k), SumFor([x], k));
    ListedInConcat(front + [x], back, k);
    ListedInConcat(front, [x], k);
    ListedInConcat(front, back, k);
  }

  /** Replacing an entry by several of the same identity with the same sum keeps the
      flows: the pad-byte split that scattered one 5-tuple over many raw entries. */
  lemma SplitEntry<K(!new), V>(front: seq<Entry<K, V>>, x: Entry<K, V>, parts: seq<Entry<K, V>>, back: seq<Entry<K, V>>)
    requires parts != [] && forall i :: 0 <= i < |parts| ==> parts[i].key == x.key
    requires SumFor(parts, x.key) == x.counters
    ensures SameFlows(front + [x] + back, front + parts + back)
  {
    forall k
      ensures Listed(front + [x] + back, k) == Listed(front + parts + back, k)
      ensures SumFor(front + [x] + back, k) == SumFor(front + parts + back, k)
    {
      SumOfConcat(front + [x], back, k);
      SumOfConcat(front, [x], k);
      SumOfConcat(front + parts, back, k);
      SumOfConcat(front, parts, k);
      ListedInConcat(front + [x], back, k);
      ListedInConcat(front, [x], k);
      ListedInConcat(front + parts, back, k);
      ListedInConcat(front, parts, k);
      SumOfSingle(x, k);
      assert parts[0].key == x.key && [x][0].key == x.key;
      if k != x.key {
        assert !Listed(parts, k);
        NothingToSum(parts, k);
      }
    }
  }

  lemma SumOfSingle<K, V>(x: Entry<K, V>, k: K)
    ensures SumFor([x], k) == if k == x.key then x.counters else []
  {
    assert [x][..0] == [];
    AddIsAbelian([], x.counters, []);
    AddIsAbelian(x.counters, [], []);
  }

  lemma SameBaseline<K(!new), V>(d: seq<Entry<K, V>>, e: seq<Entry<K, V>>)
    requires SameFlows(d, e)
    ensures Aggregate(d) == Aggregate(e)
  {
    IdentitiesAreTheListed(d);
    IdentitiesAreTheListed(e);
  }

  /** The rows of two such dumps differ at most in order and in the labels taken from
      the first entry: same flows, same deltas, and the same baseline afterwards. */
  lemma SameEmission<K(!new), V>(prev: map<K, Counters>, d: seq<Entry<K, V>>, e: seq<Entry<K, V>>)
    requires SameFlows(d, e)
    ensures Aggregate(d) == Aggregate(e)
    ensures forall r :: r in Rows(prev, d) ==>
              Listed(e, r.key) && Row(r.key, r.delta, FirstEntry(e, r.key)) in Rows(prev, e)
  {
    SameBaseline(d, e);
    RowsAreExact(prev, d);
    RowsAreExact(prev, e);
    forall r | r in Rows(prev, d)
      ensures Listed(e, r.key) && Row(r.key, r.delta, FirstEntry(e, r.key)) in Rows(prev, e)
    {
      assert ExactRow(prev, d, r);
    }
  }

  /** Over a run: dumps replaced one by one by equivalent ones emit, flow by flow and
      counter by counter, the same totals, and leave the same baseline. */
  lemma {:induction false} SameEmissionOverRuns<K(!new), V>(
    ds: seq<seq<Entry<K, V>>>, es: seq<seq<Entry<K, V>>>, k: K, c: nat)
    requires |ds| == |es| && forall i :: 0 <= i < |ds| ==> SameFlows(ds[i], es[i])
    ensures Emitted(RunRows(ds), k, c) == Emitted(RunRows(es), k, c)
    ensures BaselineAfter(ds) == BaselineAfter(es)
  {
    if ds != [] {
      var n := |ds| - 1;
      SameEmissionOverRuns(ds[..n], es[..n], k, c);
      Telescoping(ds, k, c);
      Telescoping(es, k, c);
      Telescoping(ds[..n], k, c);
      Telescoping(es[..n], k, c);
      SameBaseline(ds[n], es[n]);
      if n > 0 {
        assert SameFlows(ds[n - 1], es[n - 1]);
      }
      assert SameFlows(ds[n], es[n]);
    }
  }

  // ------------------------------------------------------------------ per-CPU cells

  /** A raw map entry: one value per CPU. */
  datatype RawEntry<+K> = RawEntry(key: K, perCpu: seq<Counters>)

  /** The parser's sum over the CPUs. */
  function CpuSum(values: seq<Counters>): Counters {
    if values == [] then [] else Add(CpuSum(values[..|values| - 1]), values[|values| - 1])
  }

  function Parse<K>(raws: seq<RawEntry<K>>): seq<Entry<K, ()>> {
    seq(|raws|, i requires 0 <= i < |raws| => Entry(raws[i].key, CpuSum(raws[i].perCpu), ()))
  }

  /** All per-CPU cells of flow `k`, of every raw entry it is spread over. */
  function Cells<K(==)>(raws: seq<RawEntry<K>>, k: K): seq<Counters> {
    if raws == [] then []
    else
      var last := raws[|raws| - 1];
      var rest := Cells(raws[..|raws| - 1], k);
      if last.key == k then rest + last.perCpu else rest
  }

  lemma {:induction false} CpuSumConcat(a: seq<Counters>, b: seq<Counters>)
    ensures CpuSum(a + b) == Add(CpuSum(a), CpuSum(b))
  {
    if b == [] {
      assert a + b == a;
      AddIsAbelian(CpuSum(a), [], []);
    } else {
      var n := |b| - 1;
      assert (a + b)[..|a + b| - 1] == a + b[..n];
      CpuSumConcat(a, b[..n]);
      AddIsAbelian(CpuSum(a), CpuSum(b[..n]), b[n]);
    }
  }

  /** The parser's sum over CPUs followed by the collector's sum over entries is one
      flat sum over all cells of the flow. */
  lemma {:induction false} NestedSumsAreOneSum<K>(raws: seq<RawEntry<K>>, k: K)
    ensures SumFor(Parse(raws), k) == CpuSum(Cells(raws, k))
  {
    if raws != [] {
      var n := |raws| - 1;
      NestedSumsAreOneSum(raws[..n], k);
      assert Parse(raws)[..n] == Parse(raws[..n]);
      CpuSumConcat(Cells(raws[..n], k), raws[n].perCpu);
    }
  }
}
