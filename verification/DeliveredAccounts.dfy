/** The same for the delivered rows of cookie mode, where one row may be written once for
    each process that holds its socket. */
module DeliveredAccounts {
  import opened Wrappers
  import opened Checkpoint
  import opened CheckpointRuns
  import opened Addresses
  import Frames
  import opened IngressSamples
  import opened IngressAccounts

  /** `copies` times `amount`. */
  function Repeated(copies: nat, amount: int): int {
    if copies == 0 then 0 else Repeated(copies - 1, amount) + amount
  }

  lemma {:induction false} MoreCopiesMore(copies: nat, amount: int)
    requires copies >= 1 && amount >= 0
    ensures Repeated(copies, amount) >= amount
    ensures Repeated(copies, amount) == amount <==> copies == 1 || amount == 0
  {
    if copies > 1 {
      MoreCopiesMore(copies - 1, amount);
    }
  }

  predicate Alike(k: DeliveredKey, other: DeliveredKey) {
    other.srcIp4 < 0x1_0000_0000 && other.dstIp4 < 0x1_0000_0000 && other.family == k.family
  }

  predicate AllAlike(rows: seq<DeliveredRow>, k: DeliveredKey) {
    forall i :: 0 <= i < |rows| ==> Alike(k, rows[i].key)
  }

  predicate DumpAlike(dump: DeliveredDump, k: DeliveredKey) {
    forall i :: 0 <= i < |dump| ==> Alike(k, dump[i].key)
  }

  predicate DumpsAlike(ticks: seq<Tick>, k: DeliveredKey) {
    forall i :: 0 <= i < |ticks| ==> DumpAlike(ticks[i].delivered, k)
  }

  /** Printed labels tell the flows to sockets apart, too. */
  lemma LabelsDetermineSocketFlow(a: DeliveredKey, b: DeliveredKey)
    requires Alike(a, a) && Alike(a, b)
    ensures LabelsOfSocket(a) == LabelsOfSocket(b) <==> a == b
  {
    BpfIntPrintsInjectively(a.srcIp4, b.srcIp4);
    BpfIntPrintsInjectively(a.dstIp4, b.dstIp4);
  }

  predicate Carries(s: UdpSample, l: Labels, amount: int, c: nat) {
    LabelsOf(s) == l && Amount(s, c) == amount
  }

  predicate AllCarry(samples: seq<UdpSample>, l: Labels, amount: int, c: nat) {
    forall i :: 0 <= i < |samples| ==> Carries(samples[i], l, amount, c)
  }

  lemma {:induction false} TotalOfCopies(samples: seq<UdpSample>, own: Labels, l: Labels, amount: int, c: nat)
    requires AllCarry(samples, own, amount, c)
    ensures Total(samples, l, c) == if own == l then Repeated(|samples|, amount) else 0
  {
    if samples != [] {
      var n := |samples| - 1;
      TotalOfCopies(samples[..n], own, l, amount, c);
      assert Carries(samples[n], own, amount, c);
    }
  }

  function Copies(r: DeliveredRow, sockets: seq<ProcessSocket>): nat {
    Max(1, |Holders(sockets, r.first.value.socketInode)|)
  }

  function RowTotal(cfg: Config, at: Span, r: DeliveredRow, sockets: seq<ProcessSocket>, l: Labels, c: nat): int {
    Total(Kept(cfg.filter, DeliveredLabels(cfg, at, r, sockets)), l, c)
  }

  lemma TotalOfOneRow(cfg: Config, at: Span, r: DeliveredRow, sockets: seq<ProcessSocket>, k: DeliveredKey, c: nat)
    requires cfg.enricher && cfg.filter == PASS_ALL && c < 2 && Alike(k, k) && Alike(k, r.key)
    ensures RowTotal(cfg, at, r, sockets, LabelsOfSocket(k), c)
         == if r.key == k then Repeated(Copies(r, sockets), At(r.delta, c)) else 0
  {
    var samples := DeliveredLabels(cfg, at, r, sockets);
    KeptByPassAll(cfg.filter, samples);
    LabelsDetermineSocketFlow(k, r.key);
    assert |samples| == Copies(r, sockets);
    TotalOfCopies(samples, LabelsOfSocket(r.key), LabelsOfSocket(k), At(r.delta, c), c);
  }

  lemma OneMoreRow(cfg: Config, at: Span, rows: seq<DeliveredRow>, view: Inventory, l: Labels, c: nat)
    requires rows != []
    ensures var n := |rows| - 1;
            (Total(DeliveredLabelled(cfg, at, rows, view), l, c)
              == Total(DeliveredLabelled(cfg, at, rows[..n], view), l, c) + RowTotal(cfg, at, rows[n], view(n), l, c))
  {
    var n := |rows| - 1;
    TotalConcat(DeliveredLabelled(cfg, at, rows[..n], view),
                Kept(cfg.filter, DeliveredLabels(cfg, at, rows[n], view(n))), l, c);
  }

  predicate NonNegative(rows: seq<DeliveredRow>, c: nat) {
    forall i :: 0 <= i < |rows| ==> At(rows[i].delta, c) >= 0
  }

  /** The row of `k` is written once, or has nothing of counter `c` to write. */
  predicate WrittenOnce(r: DeliveredRow, sockets: seq<ProcessSocket>, k: DeliveredKey, c: nat) {
    r.key == k ==> At(r.delta, c) == 0 || |Holders(sockets, r.first.value.socketInode)| <= 1
  }

  predicate AllWrittenOnce(rows: seq<DeliveredRow>, view: Inventory, k: DeliveredKey, c: nat) {
    forall i :: 0 <= i < |rows| ==> WrittenOnce(rows[i], view(i), k, c)
  }

  lemma OneMoreWrittenOnce(rows: seq<DeliveredRow>, view: Inventory, k: DeliveredKey, c: nat)
    requires rows != []
    ensures var n := |rows| - 1;
            (AllWrittenOnce(rows, view, k, c) <==>
               AllWrittenOnce(rows[..n], view, k, c) && WrittenOnce(rows[n], view(n), k, c))
  {
    var n := |rows| - 1;
    assert forall i :: 0 <= i < n ==> rows[..n][i] == rows[i];
  }

  lemma RowIsWrittenOnceIff(
    cfg: Config, at: Span, r: DeliveredRow, sockets: seq<ProcessSocket>, k: DeliveredKey, c: nat)
    requires cfg.enricher && cfg.filter == PASS_ALL && c < 2 && Alike(k, k) && Alike(k, r.key) && At(r.delta, c) >= 0
    ensures var own := if r.key == k then At(r.delta, c) else 0;
            RowTotal(cfg, at, r, sockets, LabelsOfSocket(k), c) >= own &&
            (RowTotal(cfg, at, r, sockets, LabelsOfSocket(k), c) == own <==> WrittenOnce(r, sockets, k, c))
  {
    TotalOfOneRow(cfg, at, r, sockets, k, c);
    MoreCopiesMore(Copies(r, sockets), At(r.delta, c));
  }

  lemma {:induction false} RowsAreWrittenOnceIff(
    cfg: Config, at: Span, rows: seq<DeliveredRow>, view: Inventory, k: DeliveredKey, c: nat)
    requires cfg.enricher && cfg.filter == PASS_ALL && c < 2 && Alike(k, k) && AllAlike(rows, k) && NonNegative(rows, c)
    ensures Total(DeliveredLabelled(cfg, at, rows, view), LabelsOfSocket(k), c) >= Emitted(rows, k, c)
    ensures Total(DeliveredLabelled(cfg, at, rows, view), LabelsOfSocket(k), c) == Emitted(rows, k, c) <==>
            AllWrittenOnce(rows, view, k, c)
  {
    if rows != [] {
      var n := |rows| - 1;
      assert Alike(k, rows[n].key);
      RowsAreWrittenOnceIff(cfg, at, rows[..n], view, k, c);
      OneMoreRow(cfg, at, rows, view, LabelsOfSocket(k), c);
      OneMoreWrittenOnce(rows, view, k, c);
      RowIsWrittenOnceIff(cfg, at, rows[n], view(n), k, c);
    }
  }

  lemma RowsAreAlike(prev: map<DeliveredKey, Counters>, dump: DeliveredDump, k: DeliveredKey, c: nat)
    requires DumpAlike(dump, k)
    ensures AllAlike(Rows(prev, dump), k) && NonNegative(Rows(prev, dump), c)
  {
    RowsAreExact(prev, dump);
    var rows := Rows(prev, dump);
    forall i | 0 <= i < |rows| ensures Alike(k, rows[i].key) && At(rows[i].delta, c) >= 0 {
      assert rows[i] in rows;
      assert ExactRow(prev, dump, rows[i]);
      var j :| 0 <= j < |dump| && dump[j].key == rows[i].key;
      assert Alike(k, dump[j].key);
      GrowthAt(prev[rows[i].key], SumFor(dump, rows[i].key), c);
    }
  }

  /** In cookie mode, adding up a checkpoint's unfiltered delivered samples by their
      printed labels gives what its rows emitted for the flow if and only if the socket of
      a row with something to write is held by one process at most; otherwise it gives
      more. */
  lemma DeliveredOnceIffUnshared(
    cfg: Config, at: Span, prev: map<DeliveredKey, Counters>, dump: DeliveredDump, view: Inventory, k: DeliveredKey,
    c: nat)
    requires cfg.enricher && cfg.filter == PASS_ALL && c < 2 && Alike(k, k) && DumpAlike(dump, k)
    ensures var total := Total(DeliveredLabelled(cfg, at, Rows(prev, dump), view), LabelsOfSocket(k), c);
            && total >= Emitted(Rows(prev, dump), k, c)
            && (total == Emitted(Rows(prev, dump), k, c) <==> AllWrittenOnce(Rows(prev, dump), view, k, c))
  {
    RowsAreAlike(prev, dump, k, c);
    RowsAreWrittenOnceIff(cfg, at, Rows(prev, dump), view, k, c);
  }

  lemma OneMoreDump(ticks: seq<Tick>, k: DeliveredKey, c: nat)
    requires ticks != []
    ensures var n := |ticks| - 1;
            (Emitted(RunRows(DeliveredDumps(ticks)), k, c)
              == Emitted(RunRows(DeliveredDumps(ticks[..n])), k, c)
                + Emitted(Rows(BaselineAfter(DeliveredDumps(ticks[..n])), ticks[n].delivered), k, c))
  {
    var n := |ticks| - 1;
    var dumps := DeliveredDumps(ticks);
    assert dumps[..n] == DeliveredDumps(ticks[..n]);
    EmittedConcat(RunRows(dumps[..n]), Rows(BaselineAfter(dumps[..n]), dumps[n]), k, c);
  }

  lemma CheckpointTotal(
    cfg: Config, last: Option<int>, prev: map<Frames.UdpKey, Counters>, deliveredPrev: map<DeliveredKey, Counters>,
    t: Tick, k: DeliveredKey, c: nat)
    requires cfg.bucketMs > 0 && cfg.filter == PASS_ALL && cfg.enricher && cfg.reader && cfg.mode == Cookie && c < 2
    requires Alike(k, k) && DumpAlike(t.delivered, k)
    ensures var samples := OfLayer(CheckpointSamples(cfg, last, prev, deliveredPrev, t), Delivered);
            var total := Total(samples, LabelsOfSocket(k), c);
            && total >= Emitted(Rows(deliveredPrev, t.delivered), k, c)
            && (total == Emitted(Rows(deliveredPrev, t.delivered), k, c) <==>
                  AllWrittenOnce(Rows(deliveredPrev, t.delivered), t.deliveredView, k, c))
  {
    CheckpointByLayer(cfg, last, prev, deliveredPrev, t);
    DeliveredOnceIffUnshared(cfg, SpanOf(cfg, last, t), deliveredPrev, t.delivered, t.deliveredView, k, c);
  }

  /** At every checkpoint, the row of `k` with something to write is written once. */
  predicate RunWrittenOnce(ticks: seq<Tick>, k: DeliveredKey, c: nat) {
    if ticks == [] then true
    else
      var n := |ticks| - 1;
      && RunWrittenOnce(ticks[..n], k, c)
      && AllWrittenOnce(
           Rows(BaselineAfter(DeliveredDumps(ticks[..n])), ticks[n].delivered), ticks[n].deliveredView, k, c)
  }

  /** Over a run in cookie mode the delivered samples of a flow add up, by their printed
      labels, to at least the sum of its positive changes in the delivered map, and to
      exactly that if and only if each of its rows with something to write had its socket
      held by one process at most.  Other sockets may be shared as they like. */
  lemma {:induction false} LabelsAccountForDeliveryIff(cfg: Config, ticks: seq<Tick>, k: DeliveredKey, c: nat)
    requires cfg.bucketMs > 0 && cfg.filter == PASS_ALL && cfg.enricher && cfg.reader && cfg.mode == Cookie && c < 2
    requires Alike(k, k) && DumpsAlike(ticks, k)
    ensures var total := Total(OfLayer(RunSamples(cfg, ticks), Delivered), LabelsOfSocket(k), c);
            && total >= Emitted(RunRows(DeliveredDumps(ticks)), k, c)
            && (total == Emitted(RunRows(DeliveredDumps(ticks)), k, c) <==> RunWrittenOnce(ticks, k, c))
            && (total == SumOfGains(DeliveredDumps(ticks), k, c) <==> RunWrittenOnce(ticks, k, c))
  {
    if ticks != [] {
      var n := |ticks| - 1;
      var before, t := ticks[..n], ticks[n];
      LabelsAccountForDeliveryIff(cfg, before, k, c);
      OneMoreDump(ticks, k, c);
      assert DumpAlike(t.delivered, k);
      OneMoreTotal(cfg, ticks, k, c);
      CheckpointTotal(
        cfg, LastClock(before), BaselineAfter(IngressDumps(before)), BaselineAfter(DeliveredDumps(before)), t, k, c);
    }
    Telescoping(DeliveredDumps(ticks), k, c);
  }

  lemma OneMoreTotal(cfg: Config, ticks: seq<Tick>, k: DeliveredKey, c: nat)
    requires cfg.bucketMs > 0 && ticks != []
    ensures var n := |ticks| - 1;
            var before := ticks[..n];
            var samples := CheckpointSamples(
              cfg, LastClock(before), BaselineAfter(IngressDumps(before)), BaselineAfter(DeliveredDumps(before)),
              ticks[n]);
            (Total(OfLayer(RunSamples(cfg, ticks), Delivered), LabelsOfSocket(k), c)
              == Total(OfLayer(RunSamples(cfg, before), Delivered), LabelsOfSocket(k), c)
                + Total(OfLayer(samples, Delivered), LabelsOfSocket(k), c))
  {
    var n := |ticks| - 1;
    var before := ticks[..n];
    var samples := CheckpointSamples(
      cfg, LastClock(before), BaselineAfter(IngressDumps(before)), BaselineAfter(DeliveredDumps(before)), ticks[n]);
    KeptConcat(PASS_ALL.(layer := Some(Delivered)), RunSamples(cfg, before), samples);
    TotalConcat(OfLayer(RunSamples(cfg, before), Delivered), OfLayer(samples, Delivered), LabelsOfSocket(k), c);
  }
}
