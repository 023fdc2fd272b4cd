/** What one checkpoint computes, stated without state: a dump is summed by flow
    identity, compared with the sums of the dump before it, and every counter that
    grew becomes part of one row.  All four collectors (ingress, delivered, TCP
    channel, UDP channel) compute exactly this. */
module Checkpoint {

  /** The cumulative counters of a flow in declaration order: packets and bytes for
      the UDP maps, tx_bytes, rx_bytes, tx_calls, rx_calls and connections for the
      channel maps.  A counter that is not there counts as 0. */
  type Counters = seq<int>

  function At(v: Counters, c: nat): int {
    if c < |v| then v[c] else 0
  }

  function Max(a: int, b: int): int {
    if a < b then b else a
  }

  function Pos(x: int): int {
    Max(x, 0)
  }

  function Add(a: Counters, b: Counters): Counters {
    seq(Max(|a|, |b|), c requires 0 <= c => At(a, c) + At(b, c))
  }

  /** What grew, counter by counter; a counter that shrank has grown by 0. */
  function Growth(before: Counters, now: Counters): Counters {
    seq(Max(|before|, |now|), c requires 0 <= c => Pos(At(now, c) - At(before, c)))
  }

  predicate Grew(before: Counters, now: Counters) {
    exists c :: 0 <= c < |Growth(before, now)| && Growth(before, now)[c] > 0
  }

  /** One parsed map entry: the parsed key is the identity (pad bytes are gone),
      `value` is whatever else the map stores beside the counters. */
  datatype Entry<+K, +V> = Entry(key: K, counters: Counters, value: V)

  /** One row before labelling and filtering. `first` is the entry of the dump
      that gives the row its labels. */
  datatype Row<+K, +V> = Row(key: K, delta: Counters, first: Entry<K, V>)

  /** The identities of a dump, in the order in which they first appear. */
  function Identities<K(==), V>(dump: seq<Entry<K, V>>): seq<K> {
    if dump == [] then []
    else
      var seen := Identities(dump[..|dump| - 1]);
      var k := dump[|dump| - 1].key;
      if k in seen then seen else seen + [k]
  }

  /** The sum of all entries of identity `k`. */
  function SumFor<K(==), V>(dump: seq<Entry<K, V>>, k: K): Counters {
    if dump == [] then []
    else
      var rest := SumFor(dump[..|dump| - 1], k);
      var last := dump[|dump| - 1];
      if last.key == k then Add(rest, last.counters) else rest
  }

  predicate Listed<K(==), V>(dump: seq<Entry<K, V>>, k: K) {
    exists i :: 0 <= i < |dump| && dump[i].key == k
  }

  /** The entry with which `k` first appears. */
  function FirstEntry<K(==), V>(dump: seq<Entry<K, V>>, k: K): (e: Entry<K, V>)
    requires Listed(dump, k)
    ensures e in dump && e.key == k
  {
    var init := dump[..|dump| - 1];
    if Listed(init, k) then FirstEntry(init, k)
    else
      NotListedBefore(dump, k);
      dump[|dump| - 1]
  }

  lemma NotListedBefore<K, V>(dump: seq<Entry<K, V>>, k: K)
    requires Listed(dump, k) && !Listed(dump[..|dump| - 1], k)
    ensures dump[|dump| - 1].key == k
  {
    var n := |dump| - 1;
    assert forall i :: 0 <= i < n ==> dump[..n][i] == dump[i];
  }

  /** It really is the first. */
  lemma {:induction false} FirstEntryIsFirst<K, V>(dump: seq<Entry<K, V>>, k: K) returns (i: nat)
    requires Listed(dump, k)
    ensures i < |dump| && dump[i] == FirstEntry(dump, k) && forall j :: 0 <= j < i ==> dump[j].key != k
  {
    var n := |dump| - 1;
    if Listed(dump[..n], k) {
      i := FirstEntryIsFirst(dump[..n], k);
    } else {
      i := n;
      NotListedBefore(dump, k);
      forall j | 0 <= j < n ensures dump[j].key != k {
        assert dump[..n][j] == dump[j];
      }
    }
  }

  function Aggregate<K(==), V>(dump: seq<Entry<K, V>>): map<K, Counters> {
    map k | k in Identities(dump) :: SumFor(dump, k)
  }

  ghost predicate AllListed<K, V>(dump: seq<Entry<K, V>>, ids: seq<K>) {
    forall k :: k in ids ==> Listed(dump, k)
  }

  ghost predicate Distinct<K>(ids: seq<K>) {
    forall i, j :: 0 <= i < j < |ids| ==> ids[i] != ids[j]
  }

  lemma {:induction false} IdentitiesAreTheListed<K, V>(dump: seq<Entry<K, V>>)
    ensures forall k :: k in Identities(dump) <==> Listed(dump, k)
    ensures AllListed(dump, Identities(dump)) && Distinct(Identities(dump))
  {
    if dump != [] {
      var n := |dump| - 1;
      IdentitiesAreTheListed(dump[..n]);
      forall k ensures k in Identities(dump) <==> Listed(dump, k) {
        if Listed(dump[..n], k) {
          var i :| 0 <= i < n && dump[..n][i].key == k;
          assert dump[i].key == k;
        }
        if Listed(dump, k) && k != dump[n].key {
          var i :| 0 <= i < |dump| && dump[i].key == k;
          assert dump[..n][i].key == k;
        }
      }
    }
  }

  /** They come in the order of their first entries. */
  lemma {:induction false} IdentitiesInOrder<K, V>(dump: seq<Entry<K, V>>, a: nat, b: nat) returns (i: nat, j: nat)
    requires a < b < |Identities(dump)|
    ensures i < j < |dump| && dump[i].key == Identities(dump)[a] && dump[j].key == Identities(dump)[b]
    ensures forall m :: 0 <= m < j ==> dump[m].key != Identities(dump)[b]
  {
    var n := |dump| - 1;
    var seen := Identities(dump[..n]);
    if b < |seen| {
      i, j := IdentitiesInOrder(dump[..n], a, b);
      assert forall m :: 0 <= m < j ==> dump[..n][m] == dump[m];
    } else {
      j := n;
      IdentitiesAreTheListed(dump[..n]);
      assert seen[a] in seen;
      i :| 0 <= i < n && dump[..n][i].key == seen[a];
      assert !Listed(dump[..n], dump[n].key);
      forall m | 0 <= m < n ensures dump[m].key != dump[n].key {
        assert dump[..n][m] == dump[m];
      }
    }
  }

  /** A flow without a baseline is only seeded; one that grew nowhere is silent. */
  function RowIfGrown<K(==), V>(prev: map<K, Counters>, k: K, now: Counters, first: Entry<K, V>): seq<Row<K, V>> {
    if k in prev && Grew(prev[k], now) then [Row(k, Growth(prev[k], now), first)] else []
  }

  /** The rows for the identities `ids`, in that order, against the baseline `prev`. */
  function RowsFor<K(==), V>(prev: map<K, Counters>, dump: seq<Entry<K, V>>, ids: seq<K>): seq<Row<K, V>>
    requires AllListed(dump, ids)
  {
    if ids == [] then []
    else
      var k := ids[|ids| - 1];
      assert k in ids;
      RowsFor(prev, dump, ids[..|ids| - 1]) + RowIfGrown(prev, k, SumFor(dump, k), FirstEntry(dump, k))
  }

  /** All rows of one checkpoint: the stateless diff. */
  function Rows<K(==), V>(prev: map<K, Counters>, dump: seq<Entry<K, V>>): seq<Row<K, V>> {
    IdentitiesAreTheListed(dump);
    RowsFor(prev, dump, Identities(dump))
  }
}
