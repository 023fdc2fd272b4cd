/** The ingress program on many CPUs at once, each run cut into the steps at which it
    touches the shared map: lookup, insert-if-absent, second lookup, packet increment,
    byte increment. */
module IngressMap {
  import opened Frames

  datatype Cell = Cell(packets: nat, bytes: nat)

  const ZERO := Cell(0, 0)

  /** Where a CPU is in its run. */
  datatype Pc =
    | Idle
    | AtLookup(key: UdpKey, payload: nat)
    | AtInsert(key: UdpKey, payload: nat)
    | AtRelookup(key: UdpKey, payload: nat)
    | AtPackets(key: UdpKey, payload: nat)
    | AtBytes(key: UdpKey, payload: nat)

  /** What one CPU owns: its program counter, its drop counters and its cell of every
      entry.  `keys` is the shared part of the map: which entries exist. */
  datatype Cpu = Cpu(pc: Pc, drops: map<Reason, nat>, cells: map<UdpKey, Cell>)

  datatype Kernel = Kernel(keys: set<UdpKey>, cpus: seq<Cpu>)

  datatype Event =
    | Arrive(cpu: nat, skb: Skb)   // a packet reaches an idle CPU
    | Advance(cpu: nat)            // a busy CPU takes its next step

  function DropsOf(c: Cpu, r: Reason): nat {
    if r in c.drops then c.drops[r] else 0
  }

  /** A CPU's cell of an entry it has not written yet is zero. */
  function CellOf(c: Cpu, k: UdpKey): Cell {
    if k in c.cells then c.cells[k] else ZERO
  }

  function Dropped(c: Cpu, r: Reason): Cpu {
    c.(pc := Idle, drops := c.drops[r := DropsOf(c, r) + 1])
  }

  function Boot(n: nat): Kernel {
    Kernel({}, seq(n, i => Cpu(Idle, map[], map[])))
  }

  function Arrived(c: Cpu, skb: Skb): Cpu {
    match Classify(skb)
    case Drop(r) => Dropped(c, r)
    case Account(k, payload) => c.(pc := AtLookup(k, payload))
  }

  /** The entries after a CPU's next step: an insert adds its key unless the key is
      already there (BPF_NOEXIST) or the map is full. */
  function KeysAfter(capacity: nat, keys: set<UdpKey>, pc: Pc): set<UdpKey> {
    if pc.AtInsert? && |keys| < capacity then keys + {pc.key} else keys
  }

  function Advanced(keys: set<UdpKey>, c: Cpu): Cpu {
    match c.pc
    case Idle => c
    case AtLookup(k, p) => c.(pc := if k in keys then AtPackets(k, p) else AtInsert(k, p))
    case AtInsert(k, p) => c.(pc := AtRelookup(k, p))
    case AtRelookup(k, p) => if k in keys then c.(pc := AtPackets(k, p)) else Dropped(c, MapFull)
    case AtPackets(k, p) =>
      var cell := CellOf(c, k);
      c.(pc := AtBytes(k, p), cells := c.cells[k := cell.(packets := cell.packets + 1)])
    case AtBytes(k, p) =>
      var cell := CellOf(c, k);
      c.(pc := Idle, cells := c.cells[k := cell.(bytes := cell.bytes + p)])
  }

  function Step(capacity: nat, s: Kernel, e: Event): Kernel {
    if e.cpu >= |s.cpus| then s
    else
      var c := s.cpus[e.cpu];
      match e
      case Arrive(_, skb) => if c.pc.Idle? then s.(cpus := s.cpus[e.cpu := Arrived(c, skb)]) else s
      case Advance(_) => Kernel(KeysAfter(capacity, s.keys, c.pc), s.cpus[e.cpu := Advanced(s.keys, c)])
  }

  function Exec(capacity: nat, n: nat, events: seq<Event>): (s: Kernel)
    ensures |s.cpus| == n
  {
    if events == [] then Boot(n)
    else Step(capacity, Exec(capacity, n, events[..|events| - 1]), events[|events| - 1])
  }

  // --------------------------------------------------- what arrived, from the events

  /** Is the last event of the run a packet that CPU `cpu` takes up? */
  predicate Accepts(capacity: nat, n: nat, before: seq<Event>, e: Event, cpu: nat) {
    e.Arrive? && e.cpu == cpu && cpu < n && Exec(capacity, n, before).cpus[cpu].pc.Idle?
  }

  /** The verdicts on the packets CPU `cpu` has taken up, in order. */
  function Verdicts(capacity: nat, n: nat, events: seq<Event>, cpu: nat): seq<Verdict> {
    if events == [] then []
    else
      var before, e := events[..|events| - 1], events[|events| - 1];
      var rest := Verdicts(capacity, n, before, cpu);
      if Accepts(capacity, n, before, e, cpu) then rest + [Classify(e.skb)] else rest
  }

  function Count(vs: seq<Verdict>, k: UdpKey): nat {
    if vs == [] then 0
    else
      var v := vs[|vs| - 1];
      Count(vs[..|vs| - 1], k) + if v.Account? && v.key == k then 1 else 0
  }

  function Payload(vs: seq<Verdict>, k: UdpKey): nat {
    if vs == [] then 0
    else
      var v := vs[|vs| - 1];
      Payload(vs[..|vs| - 1], k) + if v.Account? && v.key == k then v.payload else 0
  }

  function CountDrops(vs: seq<Verdict>, r: Reason): nat {
    if vs == [] then 0
    else CountDrops(vs[..|vs| - 1], r) + if vs[|vs| - 1] == Drop(r) then 1 else 0
  }

  /** The flows that have come to the map so far, on any CPU. */
  function Flows(capacity: nat, n: nat, events: seq<Event>): set<UdpKey> {
    if events == [] then {}
    else
      var before, e := events[..|events| - 1], events[|events| - 1];
      var rest := Flows(capacity, n, before);
      if Accepts(capacity, n, before, e, e.cpu) && Classify(e.skb).Account? then rest + {Classify(e.skb).key} else rest
  }

  // --------------------------------------------------------------- one CPU's ledger

  /** The packet a CPU has taken up for `k` but not counted. */
  function Waiting(pc: Pc, k: UdpKey): nat {
    if (pc.AtLookup? || pc.AtInsert? || pc.AtRelookup? || pc.AtPackets?) && pc.key == k then 1 else 0
  }

  /** The payload bytes of `k` a CPU still has to add: its packet is taken up, and
      perhaps already counted. */
  function Owed(pc: Pc, k: UdpKey): nat {
    if !pc.Idle? && pc.key == k then pc.payload else 0
  }

  /** A CPU's cell of flow `k` holds no more than what arrived for that very flow, and,
      unless the map turned a packet away, all of it but the packet in hand. */
  ghost predicate FlowLedger(c: Cpu, vs: seq<Verdict>, k: UdpKey) {
    && CellOf(c, k).packets + Waiting(c.pc, k) <= Count(vs, k)
    && CellOf(c, k).bytes + Owed(c.pc, k) <= Payload(vs, k)
    && (DropsOf(c, MapFull) == 0 ==>
          && CellOf(c, k).packets + Waiting(c.pc, k) == Count(vs, k)
          && CellOf(c, k).bytes + Owed(c.pc, k) == Payload(vs, k))
  }

  /** A CPU's drop counters count the verdicts with their reason, and every flow's
      ledger holds. */
  ghost predicate Ledger(c: Cpu, vs: seq<Verdict>) {
    && (forall r :: r != MapFull ==> DropsOf(c, r) == CountDrops(vs, r))
    && (forall k :: FlowLedger(c, vs, k))
  }

  lemma FlowLedgerArrives(c: Cpu, vs: seq<Verdict>, skb: Skb, k: UdpKey)
    requires c.pc.Idle? && FlowLedger(c, vs, k)
    ensures FlowLedger(Arrived(c, skb), vs + [Classify(skb)], k)
  {
    var more := vs + [Classify(skb)];
    assert more[..|more| - 1] == vs;
  }

  lemma FlowLedgerAdvances(keys: set<UdpKey>, c: Cpu, vs: seq<Verdict>, k: UdpKey)
    requires FlowLedger(c, vs, k)
    ensures FlowLedger(Advanced(keys, c), vs, k)
  {
    if !c.pc.Idle? && c.pc.key != k {
      assert CellOf(Advanced(keys, c), k) == CellOf(c, k);
    }
  }

  lemma LedgerArrives(c: Cpu, vs: seq<Verdict>, skb: Skb)
    requires c.pc.Idle? && Ledger(c, vs)
    ensures Ledger(Arrived(c, skb), vs + [Classify(skb)])
  {
    var more := vs + [Classify(skb)];
    assert more[..|more| - 1] == vs;
    forall k ensures FlowLedger(Arrived(c, skb), more, k) {
      FlowLedgerArrives(c, vs, skb, k);
    }
  }

  lemma LedgerAdvances(keys: set<UdpKey>, c: Cpu, vs: seq<Verdict>)
    requires Ledger(c, vs)
    ensures Ledger(Advanced(keys, c), vs)
  {
    forall k ensures FlowLedger(Advanced(keys, c), vs, k) {
      FlowLedgerAdvances(keys, c, vs, k);
    }
  }

  /** In every reachable state, on every CPU. */
  lemma {:induction false} LedgersHold(capacity: nat, n: nat, events: seq<Event>, cpu: nat)
    requires cpu < n
    ensures Ledger(Exec(capacity, n, events).cpus[cpu], Verdicts(capacity, n, events, cpu))
  {
    if events != [] {
      var before, e := events[..|events| - 1], events[|events| - 1];
      LedgersHold(capacity, n, before, cpu);
      var s := Exec(capacity, n, before);
      if e.cpu == cpu {
        match e
        case Arrive(_, skb) =>
          if s.cpus[cpu].pc.Idle? {
            LedgerArrives(s.cpus[cpu], Verdicts(capacity, n, before, cpu), skb);
          }
        case Advance(_) =>
          LedgerAdvances(s.keys, s.cpus[cpu], Verdicts(capacity, n, before, cpu));
      }
    }
  }
}
