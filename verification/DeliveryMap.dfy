/** The kprobe receive hook on many CPUs at once, each run cut into the steps at which it
    touches a shared map: first the cookie map, then the delivered map. */
module DeliveryMap {
  import opened Wrappers
  import opened Protocols
  import CookieMap
  import Frames
  import PerCpuValue

  type SocketKey = CookieMap.SocketKey
  type Draw = CookieMap.Draw

  datatype Flow = Flow(srcIp4: nat, dstIp4: nat, srcPort: nat, dstPort: nat)

  /** A packet on its way to a socket. `flow` is what its headers say, if they can be
      read and are those of UDP over IPv4 on an IPv4 socket. */
  datatype Packet = Packet(sock: SocketKey, flow: Option<Flow>, ifindex: nat, udpLen: nat)

  datatype DeliveredKey = DeliveredKey(
    socketCookie: nat, srcIp4: nat, dstIp4: nat, srcPort: nat, dstPort: nat, family: nat, ipProto: nat)

  datatype Cell = Cell(packets: nat, bytes: nat, inode: nat, ifindex: nat)

  const ZERO := Cell(0, 0, 0, 0)

  datatype Pc =
    | Idle
    | AtCookieLookup(packet: Packet)
    | AtCookieInsert(packet: Packet)
    | AtCookieRelookup(packet: Packet)
    | AtLookup(key: DeliveredKey, packet: Packet)
    | AtInsert(key: DeliveredKey, packet: Packet)
    | AtRelookup(key: DeliveredKey, packet: Packet)
    | AtPackets(key: DeliveredKey, packet: Packet)
    | AtRest(key: DeliveredKey, packet: Packet)

  /** What became of a packet. Only the last is visible outside the kernel. */
  datatype Outcome = Skipped | NoCookie | NoRoom(key: DeliveredKey) | Counted(key: DeliveredKey)

  datatype Record = Record(packet: Packet, outcome: Outcome)

  /** What one CPU owns. `done` is the log of the packets it has dealt with. */
  datatype Cpu = Cpu(pc: Pc, cells: map<DeliveredKey, Cell>, done: seq<Record>)

  datatype Kernel = Kernel(cookies: map<SocketKey, bv64>, keys: set<DeliveredKey>, cpus: seq<Cpu>)

  datatype Event =
    | Arrive(cpu: nat, packet: Packet)
    | Advance(cpu: nat, draw: Draw)
    | EvictCookie(sock: SocketKey)

  function CellOf(c: Cpu, k: DeliveredKey): Cell {
    if k in c.cells then c.cells[k] else ZERO
  }

  function PayloadOf(p: Packet): nat {
    Frames.PayloadOf(p.udpLen)
  }

  function Finish(c: Cpu, p: Packet, o: Outcome): Cpu {
    c.(pc := Idle, done := c.done + [Record(p, o)])
  }

  function KeyOf(cookie: bv64, f: Flow): DeliveredKey {
    DeliveredKey(cookie as nat, f.srcIp4, f.dstIp4, f.srcPort, f.dstPort, AF_INET, IPPROTO_UDP)
  }

  /** `account_udp_delivery`, up to its first map lookup. */
  function Account(c: Cpu, p: Packet, cookie: bv64): Cpu {
    if p.flow.None? then Finish(c, p, Skipped)
    else if cookie == 0 then Finish(c, p, NoCookie)
    else c.(pc := AtLookup(KeyOf(cookie, p.flow.value), p))
  }

  function CookieOf(cookies: map<SocketKey, bv64>, sock: SocketKey): bv64 {
    if sock in cookies then cookies[sock] else 0
  }

  function CookiesAfter(cookies: map<SocketKey, bv64>, pc: Pc, d: Draw): map<SocketKey, bv64> {
    if pc.AtCookieInsert? && pc.packet.sock !in cookies && d.admitted
    then cookies[pc.packet.sock := CookieMap.Candidate(d)] else cookies
  }

  predicate Inserts(capacity: nat, keys: set<DeliveredKey>, pc: Pc) {
    pc.AtInsert? && pc.key !in keys && |keys| < capacity
  }

  function KeysAfter(capacity: nat, keys: set<DeliveredKey>, pc: Pc): set<DeliveredKey> {
    if Inserts(capacity, keys, pc) then keys + {pc.key} else keys
  }

  function CpuAfter(capacity: nat, s: Kernel, c: Cpu): Cpu {
    match c.pc
    case Idle => c
    case AtCookieLookup(p) =>
      if p.sock in s.cookies then Account(c, p, s.cookies[p.sock]) else c.(pc := AtCookieInsert(p))
    case AtCookieInsert(p) => c.(pc := AtCookieRelookup(p))
    case AtCookieRelookup(p) => Account(c, p, CookieOf(s.cookies, p.sock))
    case AtLookup(k, p) => c.(pc := if k in s.keys then AtPackets(k, p) else AtInsert(k, p))
    case AtInsert(k, p) =>
      if Inserts(capacity, s.keys, c.pc)
      then c.(pc := AtRelookup(k, p), cells := c.cells[k := Cell(0, 0, p.sock.inode, p.ifindex)])
      else c.(pc := AtRelookup(k, p))
    case AtRelookup(k, p) => if k in s.keys then c.(pc := AtPackets(k, p)) else Finish(c, p, NoRoom(k))
    case AtPackets(k, p) =>
      var cell := CellOf(c, k);
      c.(pc := AtRest(k, p), cells := c.cells[k := cell.(packets := cell.packets + 1)],
         done := c.done + [Record(p, Counted(k))])
    case AtRest(k, p) =>
      var cell := CellOf(c, k);
      c.(pc := Idle, cells := c.cells[k := Cell(
        cell.packets, cell.bytes + PayloadOf(p),
        if cell.inode == 0 then p.sock.inode else cell.inode,
        if cell.ifindex == 0 then p.ifindex else cell.ifindex)])
  }

  function Step(capacity: nat, s: Kernel, e: Event): Kernel {
    match e
    case Arrive(cpu, p) =>
      if cpu < |s.cpus| && s.cpus[cpu].pc.Idle?
      then s.(cpus := s.cpus[cpu := s.cpus[cpu].(pc := AtCookieLookup(p))]) else s
    case Advance(cpu, d) =>
      if cpu < |s.cpus| then
        var c := s.cpus[cpu];
        Kernel(CookiesAfter(s.cookies, c.pc, d), KeysAfter(capacity, s.keys, c.pc),
               s.cpus[cpu := CpuAfter(capacity, s, c)])
      else s
    case EvictCookie(sock) => s.(cookies := s.cookies - {sock})
  }

  function Exec(capacity: nat, s: Kernel, events: seq<Event>): (t: Kernel)
    ensures |t.cpus| == |s.cpus|
  {
    if events == [] then s else Step(capacity, Exec(capacity, s, events[..|events| - 1]), events[|events| - 1])
  }

  function Boot(n: nat): Kernel {
    Kernel(map[], {}, seq(n, i => Cpu(Idle, map[], [])))
  }

  // ------------------------------------------------------------- one packet, one outcome

  /** The packets CPU `cpu` took up, from the events. */
  function Arrivals(capacity: nat, n: nat, events: seq<Event>, cpu: nat): seq<Packet> {
    if events == [] then []
    else
      var before, e := events[..|events| - 1], events[|events| - 1];
      var rest := Arrivals(capacity, n, before, cpu);
      if e.Arrive? && e.cpu == cpu && cpu < n && Exec(capacity, Boot(n), before).cpus[cpu].pc.Idle?
      then rest + [e.packet] else rest
  }

  function PacketsOf(done: seq<Record>): seq<Packet> {
    seq(|done|, i requires 0 <= i < |done| => done[i].packet)
  }

  /** The packet a CPU has in hand and has not decided about. */
  function InHand(pc: Pc): seq<Packet> {
    if pc.Idle? || pc.AtRest? then [] else [pc.packet]
  }

  function Tally(done: seq<Record>, k: DeliveredKey): nat {
    if done == [] then 0
    else Tally(done[..|done| - 1], k) + if done[|done| - 1].outcome == Counted(k) then 1 else 0
  }

  function TallyBytes(done: seq<Record>, k: DeliveredKey): nat {
    if done == [] then 0
    else
      var r := done[|done| - 1];
      TallyBytes(done[..|done| - 1], k) + if r.outcome == Counted(k) then PayloadOf(r.packet) else 0
  }

  /** The bytes of `k` that are counted as a packet but not yet added. */
  function Owed(pc: Pc, k: DeliveredKey): nat {
    if pc.AtRest? && pc.key == k then PayloadOf(pc.packet) else 0
  }

  /** A cell is the tally of the packets its CPU counted under its key. */
  ghost predicate Tallied(c: Cpu, k: DeliveredKey) {
    CellOf(c, k).packets == Tally(c.done, k) && CellOf(c, k).bytes + Owed(c.pc, k) == TallyBytes(c.done, k)
  }

  ghost predicate AllTallied(c: Cpu) {
    forall k :: Tallied(c, k)
  }

  lemma OneMoreRecord(done: seq<Record>, r: Record, k: DeliveredKey)
    ensures Tally(done + [r], k) == Tally(done, k) + if r.outcome == Counted(k) then 1 else 0
    ensures TallyBytes(done + [r], k) ==
            TallyBytes(done, k) + if r.outcome == Counted(k) then PayloadOf(r.packet) else 0
    ensures PacketsOf(done + [r]) == PacketsOf(done) + [r.packet]
  {
    var more := done + [r];
    assert more[..|more| - 1] == done;
  }

  /** An entry that does not exist has been written by no CPU. */
  ghost predicate OnlyExisting(s: Kernel) {
    forall i :: 0 <= i < |s.cpus| ==> s.cpus[i].cells.Keys <= s.keys && InHandExists(s.keys, s.cpus[i].pc)
  }

  predicate InHandExists(keys: set<DeliveredKey>, pc: Pc) {
    pc.AtPackets? || pc.AtRest? ==> pc.key in keys
  }

  lemma ExistingStep(capacity: nat, s: Kernel, c: Cpu)
    requires c.cells.Keys <= s.keys && InHandExists(s.keys, c.pc)
    ensures s.keys <= KeysAfter(capacity, s.keys, c.pc)
    ensures CpuAfter(capacity, s, c).cells.Keys <= KeysAfter(capacity, s.keys, c.pc)
    ensures InHandExists(KeysAfter(capacity, s.keys, c.pc), CpuAfter(capacity, s, c).pc)
  {
  }

  lemma {:induction false} AlwaysOnlyExisting(capacity: nat, n: nat, events: seq<Event>)
    ensures OnlyExisting(Exec(capacity, Boot(n), events))
  {
    if events != [] {
      AlwaysOnlyExisting(capacity, n, events[..|events| - 1]);
      var s, e := Exec(capacity, Boot(n), events[..|events| - 1]), events[|events| - 1];
      if e.Advance? && e.cpu < n {
        ExistingStep(capacity, s, s.cpus[e.cpu]);
      }
    }
  }

  lemma FinishTallied(c: Cpu, p: Packet, o: Outcome, k: DeliveredKey)
    requires Tallied(c, k) && !c.pc.AtRest? && !o.Counted?
    ensures Tallied(Finish(c, p, o), k)
  {
    OneMoreRecord(c.done, Record(p, o), k);
  }

  lemma AccountTallied(c: Cpu, p: Packet, cookie: bv64, k: DeliveredKey)
    requires Tallied(c, k) && !c.pc.AtRest?
    ensures Tallied(Account(c, p, cookie), k)
  {
    if p.flow.None? {
      FinishTallied(c, p, Skipped, k);
    } else if cookie == 0 {
      FinishTallied(c, p, NoCookie, k);
    }
  }

  lemma CountTallied(capacity: nat, s: Kernel, c: Cpu, k: DeliveredKey)
    requires Tallied(c, k) && (c.pc.AtPackets? || c.pc.AtRest?)
    ensures Tallied(CpuAfter(capacity, s, c), k)
  {
    OneMoreRecord(c.done, Record(c.pc.packet, Counted(c.pc.key)), k);
  }

  lemma TalliedStep(capacity: nat, s: Kernel, c: Cpu, k: DeliveredKey)
    requires Tallied(c, k) && c.cells.Keys <= s.keys
    ensures Tallied(CpuAfter(capacity, s, c), k)
  {
    match c.pc
    case AtCookieLookup(p) => CookieTallied(capacity, s, c, k);
    case AtCookieRelookup(p) => CookieTallied(capacity, s, c, k);
    case AtInsert(key, p) => InsertTallied(capacity, s, c, k);
    case AtRelookup(key, p) =>
      if key !in s.keys {
        FinishTallied(c, p, NoRoom(key), k);
      }
    case AtPackets(_, _) => CountTallied(capacity, s, c, k);
    case AtRest(_, _) => CountTallied(capacity, s, c, k);
    case _ =>
  }

  lemma CookieTallied(capacity: nat, s: Kernel, c: Cpu, k: DeliveredKey)
    requires Tallied(c, k) && (c.pc.AtCookieLookup? || c.pc.AtCookieRelookup?)
    ensures Tallied(CpuAfter(capacity, s, c), k)
  {
    AccountTallied(c, c.pc.packet, CookieOf(s.cookies, c.pc.packet.sock), k);
  }

  lemma InsertTallied(capacity: nat, s: Kernel, c: Cpu, k: DeliveredKey)
    requires Tallied(c, k) && c.pc.AtInsert? && c.cells.Keys <= s.keys
    ensures Tallied(CpuAfter(capacity, s, c), k)
  {
    assert Inserts(capacity, s.keys, c.pc) ==> c.pc.key !in c.cells;
  }

  lemma OutcomeStep(capacity: nat, s: Kernel, c: Cpu)
    ensures var d := CpuAfter(capacity, s, c);
            PacketsOf(d.done) + InHand(d.pc) == PacketsOf(c.done) + InHand(c.pc)
  {
    match c.pc
    case AtCookieLookup(p) => AccountOutcome(c, p, CookieOf(s.cookies, p.sock));
    case AtCookieRelookup(p) => AccountOutcome(c, p, CookieOf(s.cookies, p.sock));
    case AtRelookup(k, p) => OneMorePacket(c, p, NoRoom(k));
    case AtPackets(k, p) => OneMorePacket(c, p, Counted(k));
    case _ =>
  }

  lemma OneMorePacket(c: Cpu, p: Packet, o: Outcome)
    ensures PacketsOf(c.done + [Record(p, o)]) + [] == PacketsOf(c.done) + [p]
  {
    assert PacketsOf(c.done + [Record(p, o)]) == PacketsOf(c.done) + [p];
  }

  lemma AccountOutcome(c: Cpu, p: Packet, cookie: bv64)
    requires InHand(c.pc) == [p]
    ensures var d := Account(c, p, cookie);
            PacketsOf(d.done) + InHand(d.pc) == PacketsOf(c.done) + [p]
  {
    OneMorePacket(c, p, Skipped);
    OneMorePacket(c, p, NoCookie);
  }

  /** In every reachable state, on every CPU: each packet that arrived has exactly one
      outcome or is in hand, in the order of arrival, and every cell holds exactly the
      packets and bytes of the packets counted under its key. */
  lemma {:induction false} EveryPacketHasOneOutcome(capacity: nat, n: nat, events: seq<Event>, cpu: nat)
    requires cpu < n
    ensures var c := Exec(capacity, Boot(n), events).cpus[cpu];
            AllTallied(c) && PacketsOf(c.done) + InHand(c.pc) == Arrivals(capacity, n, events, cpu)
  {
    if events != [] {
      var before, e := events[..|events| - 1], events[|events| - 1];
      EveryPacketHasOneOutcome(capacity, n, before, cpu);
      AlwaysOnlyExisting(capacity, n, before);
      var s := Exec(capacity, Boot(n), before);
      var c := s.cpus[cpu];
      if e.Advance? && e.cpu == cpu {
        OutcomeStep(capacity, s, c);
        forall k ensures Tallied(CpuAfter(capacity, s, c), k) {
          assert Tallied(c, k);
          TalliedStep(capacity, s, c, k);
        }
      } else if e.Arrive? && e.cpu == cpu && c.pc.Idle? {
        assert AllTallied(c.(pc := AtCookieLookup(e.packet))) by {
          forall k ensures Tallied(c.(pc := AtCookieLookup(e.packet)), k) {
            assert Tallied(c, k);
          }
        }
      }
    }
  }

  /** A key that names the packet's own flow. */
  predicate OfItsFlow(p: Packet, k: DeliveredKey) {
    && p.flow.Some? && k.socketCookie != 0
    && var f := p.flow.value;
    && k.srcIp4 == f.srcIp4 && k.dstIp4 == f.dstIp4 && k.srcPort == f.srcPort && k.dstPort == f.dstPort
    && k.family == 2 && k.ipProto == 17
  }

  predicate FitsIn(r: Record) {
    match r.outcome
    case Skipped => r.packet.flow.None?
    case NoCookie => r.packet.flow.Some?
    case NoRoom(k) => OfItsFlow(r.packet, k)
    case Counted(k) => OfItsFlow(r.packet, k)
  }

  ghost predicate AllFit(c: Cpu) {
    && (HasKey(c.pc) ==> OfItsFlow(c.pc.packet, c.pc.key))
    && forall i :: 0 <= i < |c.done| ==> FitsIn(c.done[i])
  }

  lemma NonzeroCookie(cookie: bv64)
    ensures cookie != 0 <==> cookie as nat != 0
  {
  }

  lemma FinishFits(c: Cpu, p: Packet, o: Outcome)
    requires AllFit(c) && FitsIn(Record(p, o))
    ensures AllFit(Finish(c, p, o))
  {
  }

  lemma AccountFits(c: Cpu, p: Packet, cookie: bv64)
    requires AllFit(c)
    ensures AllFit(Account(c, p, cookie))
  {
    if p.flow.None? {
      FinishFits(c, p, Skipped);
    } else if cookie == 0 {
      FinishFits(c, p, NoCookie);
    } else {
      KeyFits(p, cookie);
      WithKeyFits(c, KeyOf(cookie, p.flow.value), p);
    }
  }

  lemma KeyFits(p: Packet, cookie: bv64)
    requires p.flow.Some? && cookie != 0
    ensures OfItsFlow(p, KeyOf(cookie, p.flow.value))
  {
    NonzeroCookie(cookie);
  }

  lemma WithKeyFits(c: Cpu, k: DeliveredKey, p: Packet)
    requires AllFit(c) && OfItsFlow(p, k)
    ensures AllFit(c.(pc := AtLookup(k, p)))
  {
  }

  lemma FitStep(capacity: nat, s: Kernel, c: Cpu)
    requires AllFit(c)
    ensures AllFit(CpuAfter(capacity, s, c))
  {
    match c.pc
    case AtCookieLookup(p) => AccountFits(c, p, CookieOf(s.cookies, p.sock));
    case AtCookieRelookup(p) => AccountFits(c, p, CookieOf(s.cookies, p.sock));
    case AtRelookup(k, p) => FinishFits(c, p, NoRoom(k));
    case AtPackets(k, p) => FinishFits(c, p, Counted(k));
    case _ =>
  }

  /** In every reachable state: a packet is skipped exactly if its headers cannot be used,
      and a counted one is counted under its own addresses and ports and a cookie that is
      not zero. */
  lemma {:induction false} PacketsAreCountedUnderTheirFlow(capacity: nat, n: nat, events: seq<Event>, cpu: nat)
    requires cpu < n
    ensures AllFit(Exec(capacity, Boot(n), events).cpus[cpu])
  {
    if events != [] {
      var before, e := events[..|events| - 1], events[|events| - 1];
      PacketsAreCountedUnderTheirFlow(capacity, n, before, cpu);
      var s := Exec(capacity, Boot(n), before);
      if e.Advance? && e.cpu == cpu {
        FitStep(capacity, s, s.cpus[cpu]);
      }
    }
  }

  // ---------------------------------------------------------- one socket, one identity

  predicate HasKey(pc: Pc) {
    pc.AtLookup? || pc.AtInsert? || pc.AtRelookup? || pc.AtPackets? || pc.AtRest?
  }

  /** What a CPU has in hand for `sock`, and what it has counted for it from its
      `since`-th record on, bears the stored cookie. */
  ghost predicate CpuSettled(cookies: map<SocketKey, bv64>, c: Cpu, sock: SocketKey, since: nat) {
    && (HasKey(c.pc) && c.pc.packet.sock == sock ==> sock in cookies && c.pc.key.socketCookie == cookies[sock] as nat)
    && (forall i :: since <= i < |c.done| && c.done[i].packet.sock == sock && c.done[i].outcome.Counted? ==>
          sock in cookies && c.done[i].outcome.key.socketCookie == cookies[sock] as nat)
  }

  ghost predicate Settled(s: Kernel, sock: SocketKey, since: seq<nat>) {
    |since| == |s.cpus| && forall i :: 0 <= i < |s.cpus| ==>
      since[i] <= |s.cpus[i].done| && CpuSettled(s.cookies, s.cpus[i], sock, since[i])
  }

  lemma FinishSettled(cookies: map<SocketKey, bv64>, c: Cpu, p: Packet, o: Outcome, sock: SocketKey, since: nat)
    requires CpuSettled(cookies, c, sock, since)
    requires o.Counted? && p.sock == sock ==> sock in cookies && o.key.socketCookie == cookies[sock] as nat
    ensures CpuSettled(cookies, Finish(c, p, o), sock, since)
    ensures |Finish(c, p, o).done| == |c.done| + 1
  {
    assert forall i :: 0 <= i < |c.done| ==> Finish(c, p, o).done[i] == c.done[i];
  }

  lemma AccountSettled(cookies: map<SocketKey, bv64>, c: Cpu, p: Packet, sock: SocketKey, since: nat)
    requires CpuSettled(cookies, c, sock, since)
    ensures CpuSettled(cookies, Account(c, p, CookieOf(cookies, p.sock)), sock, since)
    ensures |c.done| <= |Account(c, p, CookieOf(cookies, p.sock)).done|
  {
    FinishSettled(cookies, c, p, Skipped, sock, since);
    FinishSettled(cookies, c, p, NoCookie, sock, since);
  }

  lemma SettledWithMore(cookies: map<SocketKey, bv64>, more: map<SocketKey, bv64>, c: Cpu, sock: SocketKey, since: nat)
    requires CpuSettled(cookies, c, sock, since)
    requires sock in cookies ==> sock in more && more[sock] == cookies[sock]
    ensures CpuSettled(more, c, sock, since)
  {
  }

  lemma CpuSettledStep(capacity: nat, s: Kernel, c: Cpu, sock: SocketKey, since: nat)
    requires CpuSettled(s.cookies, c, sock, since)
    ensures CpuSettled(s.cookies, CpuAfter(capacity, s, c), sock, since)
    ensures |c.done| <= |CpuAfter(capacity, s, c).done|
  {
    match c.pc
    case AtCookieLookup(p) => AccountSettled(s.cookies, c, p, sock, since);
    case AtCookieRelookup(p) => AccountSettled(s.cookies, c, p, sock, since);
    case AtRelookup(k, p) => FinishSettled(s.cookies, c, p, NoRoom(k), sock, since);
    case AtPackets(k, p) => FinishSettled(s.cookies, c, p, Counted(k), sock, since);
    case _ =>
  }

  lemma {:induction false} StaysSettled(capacity: nat, s: Kernel, events: seq<Event>, sock: SocketKey, since: seq<nat>)
    requires Settled(s, sock, since) && EvictCookie(sock) !in events
    ensures Settled(Exec(capacity, s, events), sock, since)
  {
    if events != [] {
      StaysSettled(capacity, s, events[..|events| - 1], sock, since);
      var t, e := Exec(capacity, s, events[..|events| - 1]), events[|events| - 1];
      assert e in events;
      var u := Step(capacity, t, e);
      forall i | 0 <= i < |u.cpus|
        ensures since[i] <= |u.cpus[i].done| && CpuSettled(u.cookies, u.cpus[i], sock, since[i])
      {
        assert CpuSettled(t.cookies, t.cpus[i], sock, since[i]);
        if e.Advance? && e.cpu == i {
          CpuSettledStep(capacity, t, t.cpus[i], sock, since[i]);
        }
        SettledWithMore(t.cookies, u.cookies, u.cpus[i], sock, since[i]);
      }
    }
  }

  /** No CPU is past the cookie map with a packet for `sock`. */
  ghost predicate NoneUnderWay(s: Kernel, sock: SocketKey) {
    forall i :: 0 <= i < |s.cpus| && HasKey(s.cpus[i].pc) ==> s.cpus[i].pc.packet.sock != sock
  }

  ghost predicate CountedFor(c: Cpu, sock: SocketKey, i: nat) {
    i < |c.done| && c.done[i].packet.sock == sock && c.done[i].outcome.Counted?
  }

  /** As long as its cookie is not evicted, a socket's packets are counted under one
      cookie, on whichever CPUs they arrive: packets of one flow to one socket share one
      identity. */
  lemma OneSocketOneCookie(
    capacity: nat, s: Kernel, events: seq<Event>, sock: SocketKey, a: nat, i: nat, b: nat, j: nat)
    requires NoneUnderWay(s, sock) && EvictCookie(sock) !in events && a < |s.cpus| && b < |s.cpus|
    requires |s.cpus[a].done| <= i && |s.cpus[b].done| <= j
    requires CountedFor(Exec(capacity, s, events).cpus[a], sock, i) &&
             CountedFor(Exec(capacity, s, events).cpus[b], sock, j)
    ensures var t := Exec(capacity, s, events);
            t.cpus[a].done[i].outcome.key.socketCookie == t.cpus[b].done[j].outcome.key.socketCookie
  {
    var since := seq(|s.cpus|, m requires 0 <= m < |s.cpus| => |s.cpus[m].done|);
    assert Settled(s, sock, since);
    StaysSettled(capacity, s, events, sock, since);
  }

  // ------------------------------------------------------------------ whose inode it is

  predicate AboutToCount(pc: Pc, k: DeliveredKey, inode: nat) {
    HasKey(pc) && !pc.AtRest? && pc.key == k && pc.packet.sock.inode == inode
  }

  predicate CountedWith(done: seq<Record>, k: DeliveredKey, inode: nat) {
    exists i :: 0 <= i < |done| && done[i].outcome == Counted(k) && done[i].packet.sock.inode == inode
  }

  /** An inode in a cell is that of a packet counted under the cell's key, or about to
      be, on the same CPU. */
  ghost predicate Explained(c: Cpu, k: DeliveredKey) {
    CellOf(c, k).inode != 0 ==> AboutToCount(c.pc, k, CellOf(c, k).inode) || CountedWith(c.done, k, CellOf(c, k).inode)
  }

  ghost predicate Accounted(c: Cpu) {
    && (forall k :: Explained(c, k))
    && (c.pc.AtRest? ==> c.done != [] && c.done[|c.done| - 1] == Record(c.pc.packet, Counted(c.pc.key)))
  }

  lemma CountedWithMore(done: seq<Record>, r: Record, k: DeliveredKey, inode: nat)
    requires CountedWith(done, k, inode) || (r.outcome == Counted(k) && r.packet.sock.inode == inode)
    ensures CountedWith(done + [r], k, inode)
  {
    var more := done + [r];
    if CountedWith(done, k, inode) {
      var i :| 0 <= i < |done| && done[i].outcome == Counted(k) && done[i].packet.sock.inode == inode;
      assert more[i] == done[i];
    } else {
      assert more[|done|] == r;
    }
  }

  lemma FinishExplained(c: Cpu, p: Packet, o: Outcome, k: DeliveredKey)
    requires Explained(c, k) && !AboutToCount(c.pc, k, CellOf(c, k).inode)
    ensures Explained(Finish(c, p, o), k)
  {
    if CellOf(c, k).inode != 0 {
      CountedWithMore(c.done, Record(p, o), k, CellOf(c, k).inode);
    }
  }

  lemma AccountExplained(c: Cpu, p: Packet, cookie: bv64, k: DeliveredKey)
    requires Explained(c, k) && !HasKey(c.pc)
    ensures Explained(Account(c, p, cookie), k)
  {
    FinishExplained(c, p, Skipped, k);
    FinishExplained(c, p, NoCookie, k);
  }

  lemma CountExplained(capacity: nat, s: Kernel, c: Cpu, k: DeliveredKey)
    requires Accounted(c) && (c.pc.AtPackets? || c.pc.AtRest?)
    ensures Explained(CpuAfter(capacity, s, c), k)
  {
    assert Explained(c, k);
    var r := Record(c.pc.packet, Counted(c.pc.key));
    var inode := CellOf(c, k).inode;
    if c.pc.AtPackets? {
      if inode != 0 {
        CountedWithMore(c.done, r, k, inode);
      }
    } else if c.pc.key == k {
      assert c.done[|c.done| - 1] == r;
      assert CountedWith(c.done, k, c.pc.packet.sock.inode);
    }
  }

  lemma ExplainedStep(capacity: nat, s: Kernel, c: Cpu, k: DeliveredKey)
    requires Accounted(c) && c.cells.Keys <= s.keys
    ensures Explained(CpuAfter(capacity, s, c), k)
  {
    assert Explained(c, k);
    match c.pc
    case AtCookieLookup(p) =>
      if p.sock in s.cookies {
        AccountExplained(c, p, s.cookies[p.sock], k);
      }
    case AtCookieRelookup(p) => AccountExplained(c, p, CookieOf(s.cookies, p.sock), k);
    case AtRelookup(key, p) =>
      if key !in s.keys {
        assert key !in c.cells;
        FinishRefused(c, p, key, k);
      }
    case AtPackets(_, _) => CountExplained(capacity, s, c, k);
    case AtRest(_, _) => CountExplained(capacity, s, c, k);
    case _ =>
  }

  lemma FinishRefused(c: Cpu, p: Packet, key: DeliveredKey, k: DeliveredKey)
    requires Explained(c, k) && c.pc == AtRelookup(key, p) && key !in c.cells
    ensures Explained(Finish(c, p, NoRoom(key)), k)
  {
    if key != k {
      FinishExplained(c, p, NoRoom(key), k);
    }
  }

  lemma {:induction false} AlwaysAccounted(capacity: nat, n: nat, events: seq<Event>, cpu: nat)
    requires cpu < n
    ensures Accounted(Exec(capacity, Boot(n), events).cpus[cpu])
  {
    if events != [] {
      var before, e := events[..|events| - 1], events[|events| - 1];
      AlwaysAccounted(capacity, n, before, cpu);
      AlwaysOnlyExisting(capacity, n, before);
      var s := Exec(capacity, Boot(n), before);
      var c := s.cpus[cpu];
      if e.Advance? && e.cpu == cpu {
        forall k ensures Explained(CpuAfter(capacity, s, c), k) {
          ExplainedStep(capacity, s, c, k);
        }
      } else if e.Arrive? && e.cpu == cpu && c.pc.Idle? {
        forall k ensures Explained(c.(pc := AtCookieLookup(e.packet)), k) {
          assert Explained(c, k);
        }
      }
    }
  }

  /** Every cookie that was ever stored, with its socket, evicted or not. */
  function Drawn(capacity: nat, n: nat, events: seq<Event>): set<(SocketKey, nat)> {
    if events == [] then {}
    else Drawn(capacity, n, events[..|events| - 1]) + Stored(Exec(capacity, Boot(n), events).cookies)
  }

  function Stored(cookies: map<SocketKey, bv64>): set<(SocketKey, nat)> {
    set sock | sock in cookies :: (sock, cookies[sock] as nat)
  }

  /** No two sockets ever happened to draw the same cookie. */
  predicate NoneDrawnTwice(drawn: set<(SocketKey, nat)>) {
    forall a, b :: a in drawn && b in drawn && a.1 == b.1 ==> a.0 == b.0
  }

  /** What a CPU has in hand or has counted bears a cookie that its socket once drew. */
  ghost predicate CpuDrew(drawn: set<(SocketKey, nat)>, c: Cpu) {
    && (HasKey(c.pc) ==> (c.pc.packet.sock, c.pc.key.socketCookie) in drawn)
    && (forall i :: 0 <= i < |c.done| && c.done[i].outcome.Counted? ==>
          (c.done[i].packet.sock, c.done[i].outcome.key.socketCookie) in drawn)
  }

  lemma FinishDrew(drawn: set<(SocketKey, nat)>, c: Cpu, p: Packet, o: Outcome)
    requires CpuDrew(drawn, c) && (o.Counted? ==> (p.sock, o.key.socketCookie) in drawn)
    ensures CpuDrew(drawn, Finish(c, p, o))
  {
  }

  lemma AccountDrew(drawn: set<(SocketKey, nat)>, cookies: map<SocketKey, bv64>, c: Cpu, p: Packet)
    requires CpuDrew(drawn, c) && Stored(cookies) <= drawn
    ensures CpuDrew(drawn, Account(c, p, CookieOf(cookies, p.sock)))
  {
    FinishDrew(drawn, c, p, Skipped);
    FinishDrew(drawn, c, p, NoCookie);
    if p.sock in cookies {
      assert (p.sock, cookies[p.sock] as nat) in Stored(cookies);
    }
  }

  lemma DrewStep(capacity: nat, s: Kernel, c: Cpu, drawn: set<(SocketKey, nat)>)
    requires CpuDrew(drawn, c) && Stored(s.cookies) <= drawn
    ensures CpuDrew(drawn, CpuAfter(capacity, s, c))
  {
    match c.pc
    case AtCookieLookup(p) => AccountDrew(drawn, s.cookies, c, p);
    case AtCookieRelookup(p) => AccountDrew(drawn, s.cookies, c, p);
    case AtRelookup(k, p) => FinishDrew(drawn, c, p, NoRoom(k));
    case AtPackets(k, p) => FinishDrew(drawn, c, p, Counted(k));
    case _ =>
  }

  lemma DrewWithMore(drawn: set<(SocketKey, nat)>, more: set<(SocketKey, nat)>, c: Cpu)
    requires CpuDrew(drawn, c) && drawn <= more
    ensures CpuDrew(more, c)
  {
  }

  /** In every reachable state, through any number of evictions. */
  lemma {:induction false} CookiesWereDrawn(capacity: nat, n: nat, events: seq<Event>, cpu: nat)
    requires cpu < n
    ensures CpuDrew(Drawn(capacity, n, events), Exec(capacity, Boot(n), events).cpus[cpu])
    ensures Stored(Exec(capacity, Boot(n), events).cookies) <= Drawn(capacity, n, events)
  {
    if events != [] {
      var before, e := events[..|events| - 1], events[|events| - 1];
      CookiesWereDrawn(capacity, n, before, cpu);
      var s := Exec(capacity, Boot(n), before);
      if e.Advance? && e.cpu == cpu {
        DrewStep(capacity, s, s.cpus[cpu], Drawn(capacity, n, before));
      }
      DrewWithMore(Drawn(capacity, n, before), Drawn(capacity, n, events), Exec(capacity, Boot(n), events).cpus[cpu]);
    }
  }

  predicate NoEvictions(events: seq<Event>) {
    forall e :: e in events ==> !e.EvictCookie?
  }

  /** If no cookie was evicted, those drawn are those stored now. */
  lemma {:induction false} DrawnAreStored(capacity: nat, n: nat, events: seq<Event>)
    requires NoEvictions(events)
    ensures Drawn(capacity, n, events) == Stored(Exec(capacity, Boot(n), events).cookies)
  {
    if events != [] {
      var before, e := events[..|events| - 1], events[|events| - 1];
      assert events == before + [e];
      DrawnAreStored(capacity, n, before);
      var was, now := Exec(capacity, Boot(n), before).cookies, Exec(capacity, Boot(n), events).cookies;
      assert e in events;
      assert forall sock :: sock in was ==> sock in now && now[sock] == was[sock];
    }
  }

  /** The packet whose inode a cell carries belongs to a socket that drew the key's
      cookie. */
  lemma InodeHasItsSocket(
    capacity: nat, n: nat, events: seq<Event>, cpu: nat, k: DeliveredKey) returns (sock: SocketKey)
    requires cpu < n
    requires CellOf(Exec(capacity, Boot(n), events).cpus[cpu], k).inode != 0
    ensures (sock, k.socketCookie) in Drawn(capacity, n, events)
    ensures sock.inode == CellOf(Exec(capacity, Boot(n), events).cpus[cpu], k).inode
  {
    var c := Exec(capacity, Boot(n), events).cpus[cpu];
    AlwaysAccounted(capacity, n, events, cpu);
    CookiesWereDrawn(capacity, n, events, cpu);
    assert Explained(c, k);
    if AboutToCount(c.pc, k, CellOf(c, k).inode) {
      sock := c.pc.packet.sock;
    } else {
      var i :| 0 <= i < |c.done| && c.done[i].outcome == Counted(k) &&
               c.done[i].packet.sock.inode == CellOf(c, k).inode;
      sock := c.done[i].packet.sock;
    }
  }

  /** Through any evictions, unless two sockets drew the same cookie: every inode that a
      delivered entry shows, on any CPU, is the inode of the very socket each of its
      packets was counted for, so the row goes to the processes that hold that socket. */
  lemma RowsNameTheirSocket(capacity: nat, n: nat, events: seq<Event>, a: nat, b: nat, i: nat, k: DeliveredKey)
    requires a < n && b < n && NoneDrawnTwice(Drawn(capacity, n, events))
    requires CellOf(Exec(capacity, Boot(n), events).cpus[a], k).inode != 0
    requires i < |Exec(capacity, Boot(n), events).cpus[b].done|
    requires Exec(capacity, Boot(n), events).cpus[b].done[i].outcome == Counted(k)
    ensures var t := Exec(capacity, Boot(n), events);
            t.cpus[b].done[i].packet.sock.inode == CellOf(t.cpus[a], k).inode
  {
    var sock := InodeHasItsSocket(capacity, n, events, a, k);
    CookiesWereDrawn(capacity, n, events, b);
    var other := Exec(capacity, Boot(n), events).cpus[b].done[i].packet.sock;
    assert (other, k.socketCookie) in Drawn(capacity, n, events);
  }

  /** And an entry counts packets of one socket only. */
  lemma EntriesHaveOneSocket(capacity: nat, n: nat, events: seq<Event>, a: nat, i: nat, b: nat, j: nat, k: DeliveredKey)
    requires a < n && b < n && NoneDrawnTwice(Drawn(capacity, n, events))
    requires i < |Exec(capacity, Boot(n), events).cpus[a].done| && j < |Exec(capacity, Boot(n), events).cpus[b].done|
    requires Exec(capacity, Boot(n), events).cpus[a].done[i].outcome == Counted(k)
    requires Exec(capacity, Boot(n), events).cpus[b].done[j].outcome == Counted(k)
    ensures var t := Exec(capacity, Boot(n), events);
            t.cpus[a].done[i].packet.sock == t.cpus[b].done[j].packet.sock
  {
    CookiesWereDrawn(capacity, n, events, a);
    CookiesWereDrawn(capacity, n, events, b);
    var t := Exec(capacity, Boot(n), events);
    assert (t.cpus[a].done[i].packet.sock, k.socketCookie) in Drawn(capacity, n, events);
  }

  // --------------------------------------------------------------- what the dump reads

  /** The parser's fold of one entry's cells. */
  function Fold(cells: seq<Cell>): Cell {
    if cells == [] then ZERO
    else
      var a, b := Fold(cells[..|cells| - 1]), cells[|cells| - 1];
      Cell(a.packets + b.packets, a.bytes + b.bytes, PerCpuValue.OrElse(a.inode, b.inode),
           PerCpuValue.OrElse(a.ifindex, b.ifindex))
  }

  method ParseDelivered(cells: seq<Cell>) returns (v: Cell)
    ensures v == Fold(cells)
    ensures v.inode == 0 <==> forall i :: 0 <= i < |cells| ==> cells[i].inode == 0
    ensures v.inode != 0 ==> exists i :: 0 <= i < |cells| && cells[i].inode == v.inode
  {
    v := ZERO;
    for i := 0 to |cells|
      invariant v == Fold(cells[..i])
      invariant v.inode == 0 <==> forall j :: 0 <= j < i ==> cells[j].inode == 0
      invariant v.inode != 0 ==> exists j :: 0 <= j < i && cells[j].inode == v.inode
    {
      assert cells[..i + 1][..i] == cells[..i];
      v := Cell(v.packets + cells[i].packets, v.bytes + cells[i].bytes, PerCpuValue.OrElse(v.inode, cells[i].inode),
                PerCpuValue.OrElse(v.ifindex, cells[i].ifindex));
    }
    assert cells[..|cells|] == cells;
  }

  /** The cells of entry `k`, one for each CPU. */
  function CellsOf(cpus: seq<Cpu>, k: DeliveredKey): seq<Cell> {
    seq(|cpus|, i requires 0 <= i < |cpus| => CellOf(cpus[i], k))
  }

  function TallyOfAll(cpus: seq<Cpu>, k: DeliveredKey): nat {
    if cpus == [] then 0 else TallyOfAll(cpus[..|cpus| - 1], k) + Tally(cpus[|cpus| - 1].done, k)
  }

  function BytesOfAll(cpus: seq<Cpu>, k: DeliveredKey): nat {
    if cpus == [] then 0 else BytesOfAll(cpus[..|cpus| - 1], k) + TallyBytes(cpus[|cpus| - 1].done, k)
  }

  function OwedByAll(cpus: seq<Cpu>, k: DeliveredKey): nat {
    if cpus == [] then 0 else OwedByAll(cpus[..|cpus| - 1], k) + Owed(cpus[|cpus| - 1].pc, k)
  }

  lemma {:induction false} FoldTallies(cpus: seq<Cpu>, k: DeliveredKey)
    requires forall i :: 0 <= i < |cpus| ==> Tallied(cpus[i], k)
    ensures Fold(CellsOf(cpus, k)).packets == TallyOfAll(cpus, k)
    ensures Fold(CellsOf(cpus, k)).bytes + OwedByAll(cpus, k) == BytesOfAll(cpus, k)
    ensures Fold(CellsOf(cpus, k)).inode != 0 ==>
              exists i :: 0 <= i < |cpus| && CellOf(cpus[i], k).inode == Fold(CellsOf(cpus, k)).inode
  {
    if cpus != [] {
      var n := |cpus| - 1;
      var init := cpus[..n];
      FoldTallies(init, k);
      assert CellsOf(cpus, k)[..n] == CellsOf(init, k);
      assert CellsOf(cpus, k)[n] == CellOf(cpus[n], k);
      assert Tallied(cpus[n], k);
      if Fold(CellsOf(init, k)).inode != 0 {
        var i :| 0 <= i < n && CellOf(init[i], k).inode == Fold(CellsOf(init, k)).inode;
        assert CellOf(cpus[i], k).inode == Fold(CellsOf(cpus, k)).inode;
      }
    }
  }

  /** What a dump reads of an entry is every packet counted under its key, on any CPU,
      with its payload bytes, but for those a CPU has still to add; and if it shows an
      inode, that is the inode of the socket of each of them, through any evictions, unless
      two sockets drew the same cookie. */
  lemma ReadingNamesItsSocket(capacity: nat, n: nat, events: seq<Event>, k: DeliveredKey)
    ensures var t := Exec(capacity, Boot(n), events);
            && Fold(CellsOf(t.cpus, k)).packets == TallyOfAll(t.cpus, k)
            && Fold(CellsOf(t.cpus, k)).bytes == BytesOfAll(t.cpus, k) - OwedByAll(t.cpus, k)
    ensures var t := Exec(capacity, Boot(n), events);
            NoneDrawnTwice(Drawn(capacity, n, events)) && Fold(CellsOf(t.cpus, k)).inode != 0 ==>
            forall b, i :: 0 <= b < n && 0 <= i < |t.cpus[b].done| && t.cpus[b].done[i].outcome == Counted(k) ==>
              t.cpus[b].done[i].packet.sock.inode == Fold(CellsOf(t.cpus, k)).inode
  {
    var t := Exec(capacity, Boot(n), events);
    forall i | 0 <= i < n ensures Tallied(t.cpus[i], k) {
      EveryPacketHasOneOutcome(capacity, n, events, i);
    }
    FoldTallies(t.cpus, k);
    if NoneDrawnTwice(Drawn(capacity, n, events)) && Fold(CellsOf(t.cpus, k)).inode != 0 {
      var a :| 0 <= a < n && CellOf(t.cpus[a], k).inode == Fold(CellsOf(t.cpus, k)).inode;
      forall b, i | 0 <= b < n && 0 <= i < |t.cpus[b].done| && t.cpus[b].done[i].outcome == Counted(k)
        ensures t.cpus[b].done[i].packet.sock.inode == Fold(CellsOf(t.cpus, k)).inode
      {
        RowsNameTheirSocket(capacity, n, events, a, b, i, k);
      }
    }
  }
}
