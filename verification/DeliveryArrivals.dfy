/** What arrived for a socket is what the delivered map counts: no packet of a flow with an
    entry is refused, as long as the socket keeps its cookie. */
module DeliveryArrivals {
  import opened Wrappers
  import opened Checkpoint
  import opened CheckpointRuns
  import opened Protocols
  import opened DeliveryMap
  import opened DeliveryRows

  // ---------------------------------------------------------------- who is refused

  /** A key has its entry, or there is room for it. */
  predicate Admitted(capacity: nat, keys: set<DeliveredKey>, k: DeliveredKey) {
    k in keys || |keys| < capacity
  }

  /** A CPU that looks its key up again finds it, unless the map is full. */
  ghost predicate Sound(capacity: nat, s: Kernel) {
    |s.keys| <= capacity && forall i :: 0 <= i < |s.cpus| ==> SoundCpu(capacity, s.keys, s.cpus[i].pc)
  }

  predicate SoundCpu(capacity: nat, keys: set<DeliveredKey>, pc: Pc) {
    pc.AtRelookup? ==> pc.key in keys || |keys| >= capacity
  }

  lemma GrowingKeys(capacity: nat, keys: set<DeliveredKey>, pc: Pc)
    requires |keys| <= capacity
    ensures var after := KeysAfter(capacity, keys, pc);
            && keys <= after && |keys| <= |after| <= capacity
            && (pc.AtInsert? ==> pc.key in after || |after| >= capacity)
  {
  }

  lemma AdmittedBefore(capacity: nat, keys: set<DeliveredKey>, pc: Pc, k: DeliveredKey)
    requires |keys| <= capacity && Admitted(capacity, KeysAfter(capacity, keys, pc), k)
    ensures Admitted(capacity, keys, k)
  {
    GrowingKeys(capacity, keys, pc);
  }

  lemma {:induction false} AlwaysSound(capacity: nat, n: nat, events: seq<Event>)
    ensures Sound(capacity, Exec(capacity, Boot(n), events))
  {
    if events != [] {
      var before, e := events[..|events| - 1], events[|events| - 1];
      AlwaysSound(capacity, n, before);
      var s := Exec(capacity, Boot(n), before);
      if e.Advance? && e.cpu < n {
        var c := s.cpus[e.cpu];
        GrowingKeys(capacity, s.keys, c.pc);
        forall i | 0 <= i < n ensures SoundCpu(capacity, Step(capacity, s, e).keys, Step(capacity, s, e).cpus[i].pc) {
          assert SoundCpu(capacity, s.keys, s.cpus[i].pc);
        }
      }
    }
  }

  ghost predicate NeverRefused(c: Cpu, k: DeliveredKey) {
    forall i :: 0 <= i < |c.done| ==> c.done[i].outcome != NoRoom(k)
  }

  lemma NotRefusedNow(capacity: nat, s: Kernel, c: Cpu, k: DeliveredKey)
    requires SoundCpu(capacity, s.keys, c.pc) && Admitted(capacity, s.keys, k) && NeverRefused(c, k)
    ensures NeverRefused(CpuAfter(capacity, s, c), k)
  {
  }

  /** However full the map is, and however the CPUs race: a key that has an entry, or would
      get one, was never refused. */
  lemma {:induction false} AdmittedKeysAreNeverRefused(
    capacity: nat, n: nat, events: seq<Event>, cpu: nat, k: DeliveredKey)
    requires cpu < n && Admitted(capacity, Exec(capacity, Boot(n), events).keys, k)
    ensures NeverRefused(Exec(capacity, Boot(n), events).cpus[cpu], k)
  {
    if events != [] {
      var before, e := events[..|events| - 1], events[|events| - 1];
      var s := Exec(capacity, Boot(n), before);
      AlwaysSound(capacity, n, before);
      if e.Advance? && e.cpu < n {
        AdmittedBefore(capacity, s.keys, s.cpus[e.cpu].pc, k);
      }
      AdmittedKeysAreNeverRefused(capacity, n, before, cpu, k);
      if e.Advance? && e.cpu == cpu {
        NotRefusedNow(capacity, s, s.cpus[cpu], k);
      }
    }
  }

  // -------------------------------------------------------------- what is in the books

  predicate IsFor(p: Packet, sock: SocketKey, f: Flow) {
    p.sock == sock && p.flow == Some(f)
  }

  /** What a packet adds: itself, or its payload bytes. */
  function Weight(p: Packet, bytes: bool): nat {
    if bytes then PayloadOf(p) else 1
  }

  /** What the packets of the flow to the socket weigh together. */
  function Weigh(packets: seq<Packet>, sock: SocketKey, f: Flow, bytes: bool): nat {
    if packets == [] then 0
    else
      var n := |packets| - 1;
      Weigh(packets[..n], sock, f, bytes) + if IsFor(packets[n], sock, f) then Weight(packets[n], bytes) else 0
  }

  lemma WeighOneMore(packets: seq<Packet>, p: Packet, sock: SocketKey, f: Flow, bytes: bool)
    ensures Weigh(packets + [p], sock, f, bytes) ==
            Weigh(packets, sock, f, bytes) + if IsFor(p, sock, f) then Weight(p, bytes) else 0
  {
    var more := packets + [p];
    assert more[..|more| - 1] == packets;
  }

  function TallyOf(done: seq<Record>, k: DeliveredKey, bytes: bool): nat {
    if bytes then TallyBytes(done, k) else Tally(done, k)
  }

  /** What a CPU has counted under the key, and has in hand for it. */
  function Held(c: Cpu, k: DeliveredKey, sock: SocketKey, f: Flow, bytes: bool): nat {
    TallyOf(c.done, k, bytes) + Weigh(InHand(c.pc), sock, f, bytes)
  }

  /** `k` is the key of the flow to the socket, whose cookie is stored. */
  predicate IsKeyOf(cookies: map<SocketKey, bv64>, k: DeliveredKey, sock: SocketKey, f: Flow) {
    sock in cookies && cookies[sock] != 0 && k == KeyOf(cookies[sock], f)
  }

  /** The outcome of a packet is to be counted under `k` exactly if it is for the socket. */
  predicate Books(r: Record, k: DeliveredKey, sock: SocketKey, f: Flow) {
    r.outcome == Counted(k) <==> IsFor(r.packet, sock, f)
  }

  lemma BookedHeld(c: Cpu, p: Packet, o: Outcome, k: DeliveredKey, sock: SocketKey, f: Flow, bytes: bool)
    requires InHand(c.pc) == [p] && Books(Record(p, o), k, sock, f)
    ensures TallyOf(c.done + [Record(p, o)], k, bytes) == Held(c, k, sock, f, bytes)
  {
    OneMoreRecord(c.done, Record(p, o), k);
    WeighOneMore([], p, sock, f, bytes);
    assert [] + [p] == [p];
  }

  lemma AccountHeld(
    cookies: map<SocketKey, bv64>, c: Cpu, p: Packet, k: DeliveredKey, sock: SocketKey, f: Flow, bytes: bool)
    requires InHand(c.pc) == [p] && IsKeyOf(cookies, k, sock, f)
    ensures Held(Account(c, p, CookieOf(cookies, p.sock)), k, sock, f, bytes) == Held(c, k, sock, f, bytes)
  {
    if p.flow.None? {
      BookedHeld(c, p, Skipped, k, sock, f, bytes);
    } else if CookieOf(cookies, p.sock) == 0 {
      BookedHeld(c, p, NoCookie, k, sock, f, bytes);
    }
  }

  /** A key in hand is `k` exactly if the packet is for the socket. */
  lemma KeyInHand(
    cookies: map<SocketKey, bv64>, drawn: set<(SocketKey, nat)>, c: Cpu, k: DeliveredKey, sock: SocketKey, f: Flow)
    requires HasKey(c.pc) && OfItsFlow(c.pc.packet, c.pc.key) && IsKeyOf(cookies, k, sock, f)
    requires NoneDrawnTwice(drawn) && (sock, k.socketCookie) in drawn &&
             (c.pc.packet.sock, c.pc.key.socketCookie) in drawn
    requires c.pc.packet.sock == sock ==> c.pc.key.socketCookie == k.socketCookie
    ensures c.pc.key == k <==> IsFor(c.pc.packet, sock, f)
  {
    if c.pc.key == k {
      var g := c.pc.packet.flow.value;
      assert g.srcIp4 == f.srcIp4 && g.dstIp4 == f.dstIp4 && g.srcPort == f.srcPort && g.dstPort == f.dstPort;
    }
  }

  /** One step of a CPU keeps its books, if its key in hand is known and not refused. */
  lemma HeldStep(capacity: nat, s: Kernel, c: Cpu, k: DeliveredKey, sock: SocketKey, f: Flow, bytes: bool)
    requires IsKeyOf(s.cookies, k, sock, f)
    requires HasKey(c.pc) ==> (c.pc.key == k <==> IsFor(c.pc.packet, sock, f))
    requires c.pc.AtRelookup? && c.pc.key == k ==> k in s.keys
    ensures Held(CpuAfter(capacity, s, c), k, sock, f, bytes) == Held(c, k, sock, f, bytes)
  {
    match c.pc
    case AtCookieLookup(p) => AccountHeld(s.cookies, c, p, k, sock, f, bytes);
    case AtCookieRelookup(p) => AccountHeld(s.cookies, c, p, k, sock, f, bytes);
    case AtRelookup(key, p) =>
      if key !in s.keys {
        BookedHeld(c, p, NoRoom(key), k, sock, f, bytes);
      }
    case AtPackets(key, p) => BookedHeld(c, p, Counted(key), k, sock, f, bytes);
    case _ =>
  }

  // -------------------------------------------------------------------- over intervals

  lemma {:induction false} ExecOnward(capacity: nat, s: Kernel, a: seq<Event>, b: seq<Event>)
    ensures Exec(capacity, s, a + b) == Exec(capacity, Exec(capacity, s, a), b)
  {
    if b == [] {
      assert a + b == a;
    } else {
      var m := |b| - 1;
      assert (a + b)[..|a + b| - 1] == a + b[..m];
      ExecOnward(capacity, s, a, b[..m]);
    }
  }

  /** Every key in hand for the socket bears the stored cookie. */
  ghost predicate InStep(s: Kernel, sock: SocketKey) {
    forall i :: 0 <= i < |s.cpus| ==> KeyInStep(s.cookies, s.cpus[i].pc, sock)
  }

  predicate KeyInStep(cookies: map<SocketKey, bv64>, pc: Pc, sock: SocketKey) {
    HasKey(pc) && pc.packet.sock == sock ==> sock in cookies && pc.key.socketCookie == cookies[sock] as nat
  }

  /** While the socket keeps its cookie, what is in step stays so. */
  lemma {:induction false} StaysInStep(capacity: nat, s: Kernel, more: seq<Event>, sock: SocketKey)
    requires sock in s.cookies && InStep(s, sock) && EvictCookie(sock) !in more
    ensures var t := Exec(capacity, s, more);
            sock in t.cookies && t.cookies[sock] == s.cookies[sock] && InStep(t, sock)
  {
    var since := seq(|s.cpus|, m requires 0 <= m < |s.cpus| => |s.cpus[m].done|);
    assert Settled(s, sock, since) by {
      assert forall i :: 0 <= i < |s.cpus| ==> KeyInStep(s.cookies, s.cpus[i].pc, sock);
    }
    StaysSettled(capacity, s, more, sock, since);
    var t := Exec(capacity, s, more);
    forall i | 0 <= i < |t.cpus| ensures KeyInStep(t.cookies, t.cpus[i].pc, sock) {
      assert CpuSettled(t.cookies, t.cpus[i], sock, since[i]);
    }
    CookieStays(capacity, s, more, sock);
  }

  lemma {:induction false} CookieStays(capacity: nat, s: Kernel, more: seq<Event>, sock: SocketKey)
    requires sock in s.cookies && EvictCookie(sock) !in more
    ensures var t := Exec(capacity, s, more);
            sock in t.cookies && t.cookies[sock] == s.cookies[sock]
  {
    if more != [] {
      assert more[|more| - 1] in more;
      CookieStays(capacity, s, more[..|more| - 1], sock);
    }
  }

  /** What one CPU counted and holds of the flow, less what came to it. */
  function Balance(
    capacity: nat, n: nat, events: seq<Event>, cpu: nat, k: DeliveredKey, sock: SocketKey, f: Flow, bytes: bool): int
    requires cpu < n
  {
    Held(Exec(capacity, Boot(n), events).cpus[cpu], k, sock, f, bytes)
      - Weigh(Arrivals(capacity, n, events, cpu), sock, f, bytes)
  }

  predicate Balanced(
    capacity: nat, n: nat, was: seq<Event>, events: seq<Event>, cpu: nat, k: DeliveredKey, sock: SocketKey, f: Flow,
    bytes: bool)
    requires cpu < n
  {
    Balance(capacity, n, events, cpu, k, sock, f, bytes) == Balance(capacity, n, was, cpu, k, sock, f, bytes)
  }

  /** What an interval needs: the socket has a cookie at its start and keeps it, no two
      sockets drew the same one, and the key is admitted at the end. */
  ghost predicate Undisturbed(
    capacity: nat, n: nat, before: seq<Event>, more: seq<Event>, k: DeliveredKey, sock: SocketKey, f: Flow) {
    && IsKeyOf(Exec(capacity, Boot(n), before).cookies, k, sock, f)
    && InStep(Exec(capacity, Boot(n), before), sock) && EvictCookie(sock) !in more
    && NoneDrawnTwice(Drawn(capacity, n, before + more))
    && Admitted(capacity, Exec(capacity, Boot(n), before + more).keys, k)
  }

  lemma UndisturbedBefore(
    capacity: nat, n: nat, before: seq<Event>, more: seq<Event>, k: DeliveredKey, sock: SocketKey, f: Flow)
    requires more != [] && Undisturbed(capacity, n, before, more, k, sock, f)
    ensures Undisturbed(capacity, n, before, more[..|more| - 1], k, sock, f)
  {
    var m := |more| - 1;
    var e := more[m];
    assert (before + more)[..|before + more| - 1] == before + more[..m];
    AlwaysSound(capacity, n, before + more[..m]);
    var s := Exec(capacity, Boot(n), before + more[..m]);
    if e.Advance? && e.cpu < n {
      AdmittedBefore(capacity, s.keys, s.cpus[e.cpu].pc, k);
    }
    assert Drawn(capacity, n, before + more[..m]) <= Drawn(capacity, n, before + more);
  }

  /** At the end of the interval everything a CPU needs to keep its books holds. */
  lemma UndisturbedCpu(
    capacity: nat, n: nat, before: seq<Event>, more: seq<Event>, k: DeliveredKey, sock: SocketKey, f: Flow, cpu: nat)
    requires cpu < n && Undisturbed(capacity, n, before, more, k, sock, f)
    ensures var t := Exec(capacity, Boot(n), before + more);
            var c := t.cpus[cpu];
            && IsKeyOf(t.cookies, k, sock, f)
            && (HasKey(c.pc) ==> (c.pc.key == k <==> IsFor(c.pc.packet, sock, f)))
            && SoundCpu(capacity, t.keys, c.pc)
  {
    var events := before + more;
    var s, t := Exec(capacity, Boot(n), before), Exec(capacity, Boot(n), events);
    ExecOnward(capacity, Boot(n), before, more);
    StaysInStep(capacity, s, more, sock);
    AlwaysSound(capacity, n, events);
    CookiesWereDrawn(capacity, n, events, cpu);
    PacketsAreCountedUnderTheirFlow(capacity, n, events, cpu);
    assert KeyInStep(t.cookies, t.cpus[cpu].pc, sock);
    assert (sock, t.cookies[sock] as nat) in Stored(t.cookies);
    if HasKey(t.cpus[cpu].pc) {
      KeyInHand(t.cookies, Drawn(capacity, n, events), t.cpus[cpu], k, sock, f);
    }
  }

  lemma HeldStays(
    capacity: nat, n: nat, before: seq<Event>, more: seq<Event>, k: DeliveredKey, sock: SocketKey, f: Flow, cpu: nat,
    bytes: bool)
    requires cpu < n && Undisturbed(capacity, n, before, more, k, sock, f)
    ensures var t := Exec(capacity, Boot(n), before + more);
            Held(CpuAfter(capacity, t, t.cpus[cpu]), k, sock, f, bytes) == Held(t.cpus[cpu], k, sock, f, bytes)
  {
    var t := Exec(capacity, Boot(n), before + more);
    UndisturbedCpu(capacity, n, before, more, k, sock, f, cpu);
    HeldStep(capacity, t, t.cpus[cpu], k, sock, f, bytes);
  }

  lemma BalanceStep(
    capacity: nat, n: nat, before: seq<Event>, more: seq<Event>, k: DeliveredKey, sock: SocketKey, f: Flow, cpu: nat,
    bytes: bool)
    requires more != [] && cpu < n && Undisturbed(capacity, n, before, more, k, sock, f)
    ensures Balanced(capacity, n, before + more[..|more| - 1], before + more, cpu, k, sock, f, bytes)
  {
    var less, events := more[..|more| - 1], before + more;
    var e := events[|events| - 1];
    assert events[..|events| - 1] == before + less;
    if e.Advance? && e.cpu == cpu {
      UndisturbedBefore(capacity, n, before, more, k, sock, f);
      HeldStays(capacity, n, before, less, k, sock, f, cpu, bytes);
      BalanceOnAdvance(capacity, n, events, cpu, k, sock, f, bytes);
    } else {
      BalanceOtherwise(capacity, n, events, cpu, k, sock, f, bytes);
    }
  }

  lemma BalanceOnAdvance(
    capacity: nat, n: nat, events: seq<Event>, cpu: nat, k: DeliveredKey, sock: SocketKey, f: Flow, bytes: bool)
    requires events != [] && cpu < n
    requires events[|events| - 1].Advance? && events[|events| - 1].cpu == cpu
    requires var t := Exec(capacity, Boot(n), events[..|events| - 1]);
             Held(CpuAfter(capacity, t, t.cpus[cpu]), k, sock, f, bytes) == Held(t.cpus[cpu], k, sock, f, bytes)
    ensures Balanced(capacity, n, events[..|events| - 1], events, cpu, k, sock, f, bytes)
  {
  }

  /** An arrival counts on both sides; what does not concern the CPU counts on neither. */
  lemma BalanceOtherwise(
    capacity: nat, n: nat, events: seq<Event>, cpu: nat, k: DeliveredKey, sock: SocketKey, f: Flow, bytes: bool)
    requires events != [] && cpu < n
    requires var e := events[|events| - 1]; !(e.Advance? && e.cpu == cpu)
    ensures Balanced(capacity, n, events[..|events| - 1], events, cpu, k, sock, f, bytes)
  {
    var was, e := events[..|events| - 1], events[|events| - 1];
    var c := Exec(capacity, Boot(n), was).cpus[cpu];
    if e.Arrive? && e.cpu == cpu && c.pc.Idle? {
      ArrivalHeld(c, e.packet, k, sock, f, bytes);
      WeighOneMore(Arrivals(capacity, n, was, cpu), e.packet, sock, f, bytes);
    }
  }

  lemma ArrivalHeld(c: Cpu, p: Packet, k: DeliveredKey, sock: SocketKey, f: Flow, bytes: bool)
    requires c.pc.Idle?
    ensures Held(c.(pc := AtCookieLookup(p)), k, sock, f, bytes) ==
            Held(c, k, sock, f, bytes) + if IsFor(p, sock, f) then Weight(p, bytes) else 0
  {
    WeighOneMore([], p, sock, f, bytes);
    assert [] + [p] == [p];
  }

  /** Over an undisturbed interval a CPU counts, of the flow, exactly what comes to it, but
      for what it has in hand. */
  lemma {:induction false} BalanceStays(
    capacity: nat, n: nat, before: seq<Event>, more: seq<Event>, k: DeliveredKey, sock: SocketKey, f: Flow, cpu: nat,
    bytes: bool)
    requires cpu < n && Undisturbed(capacity, n, before, more, k, sock, f)
    ensures Balance(capacity, n, before + more, cpu, k, sock, f, bytes) ==
            Balance(capacity, n, before, cpu, k, sock, f, bytes)
    decreases |more|
  {
    if more == [] {
      assert before + more == before;
    } else {
      UndisturbedBefore(capacity, n, before, more, k, sock, f);
      BalanceStays(capacity, n, before, more[..|more| - 1], k, sock, f, cpu, bytes);
      BalanceStep(capacity, n, before, more, k, sock, f, cpu, bytes);
    }
  }

  // ------------------------------------------------------------------------- whole runs

  /** What came for the flow to the socket on the first `m` CPUs, but for what is in hand. */
  function Arrived(capacity: nat, n: nat, events: seq<Event>, sock: SocketKey, f: Flow, bytes: bool, m: nat): int
    requires m <= n
  {
    if m == 0 then 0
    else
      Arrived(capacity, n, events, sock, f, bytes, m - 1)
      + Weigh(Arrivals(capacity, n, events, m - 1), sock, f, bytes)
      - Weigh(InHand(Exec(capacity, Boot(n), events).cpus[m - 1].pc), sock, f, bytes)
  }

  function CountedByAll(cpus: seq<Cpu>, k: DeliveredKey, bytes: bool): nat {
    if bytes then BytesOfAll(cpus, k) else TallyOfAll(cpus, k)
  }

  lemma {:induction false} CountedAreArrivals(
    capacity: nat, n: nat, before: seq<Event>, more: seq<Event>, k: DeliveredKey, sock: SocketKey, f: Flow, bytes: bool,
    m: nat)
    requires m <= n && Undisturbed(capacity, n, before, more, k, sock, f)
    ensures var s, t := Exec(capacity, Boot(n), before), Exec(capacity, Boot(n), before + more);
            CountedByAll(t.cpus[..m], k, bytes) - CountedByAll(s.cpus[..m], k, bytes) ==
            Arrived(capacity, n, before + more, sock, f, bytes, m) - Arrived(capacity, n, before, sock, f, bytes, m)
  {
    if m > 0 {
      CountedAreArrivals(capacity, n, before, more, k, sock, f, bytes, m - 1);
      OneMoreCpu(Exec(capacity, Boot(n), before).cpus, k, bytes, m);
      OneMoreCpu(Exec(capacity, Boot(n), before + more).cpus, k, bytes, m);
      OneCpuCounts(capacity, n, before, more, k, sock, f, bytes, m - 1);
    }
  }

  lemma OneMoreCpu(cpus: seq<Cpu>, k: DeliveredKey, bytes: bool, m: nat)
    requires 0 < m <= |cpus|
    ensures CountedByAll(cpus[..m], k, bytes) ==
            CountedByAll(cpus[..m - 1], k, bytes) + TallyOf(cpus[m - 1].done, k, bytes)
  {
    assert cpus[..m][..m - 1] == cpus[..m - 1];
  }

  lemma OneCpuCounts(
    capacity: nat, n: nat, before: seq<Event>, more: seq<Event>, k: DeliveredKey, sock: SocketKey, f: Flow, bytes: bool,
    cpu: nat)
    requires cpu < n && Undisturbed(capacity, n, before, more, k, sock, f)
    ensures var c, d := Exec(capacity, Boot(n), before).cpus[cpu], Exec(capacity, Boot(n), before + more).cpus[cpu];
            TallyOf(d.done, k, bytes) - TallyOf(c.done, k, bytes) ==
            (Weigh(Arrivals(capacity, n, before + more, cpu), sock, f, bytes) - Weigh(InHand(d.pc), sock, f, bytes)) -
            (Weigh(Arrivals(capacity, n, before, cpu), sock, f, bytes) - Weigh(InHand(c.pc), sock, f, bytes))
  {
    BalanceStays(capacity, n, before, more, k, sock, f, cpu, bytes);
  }

  /** That, as far as its packets are counted, or its bytes added. */
  function Added(
    capacity: nat, n: nat, events: seq<Event>, k: DeliveredKey, sock: SocketKey, f: Flow, bytes: bool): int {
    Arrived(capacity, n, events, sock, f, bytes, n)
      - if bytes then OwedByAll(Exec(capacity, Boot(n), events).cpus, k) else 0
  }

  /** Every dump lists the flow; from the first reading to the last, during `more`, its socket
      has its cookie and keeps it; and no two sockets drew the same one. */
  ghost predicate CookieKept<V>(
    capacity: nat, n: nat, events: seq<Event>, cuts: seq<nat>, dumps: seq<seq<Entry<DeliveredKey, V>>>,
    k: DeliveredKey, sock: SocketKey, f: Flow, more: seq<Event>) {
    && Dumped(capacity, n, events, cuts, dumps, k)
    && events[..cuts[|cuts| - 1]] == events[..cuts[0]] + more
    && IsKeyOf(Exec(capacity, Boot(n), events[..cuts[0]]).cookies, k, sock, f)
    && InStep(Exec(capacity, Boot(n), events[..cuts[0]]), sock) && EvictCookie(sock) !in more
    && NoneDrawnTwice(Drawn(capacity, n, events[..cuts[|cuts| - 1]]))
  }

  lemma AllCountedAreArrivals(
    capacity: nat, n: nat, before: seq<Event>, more: seq<Event>, k: DeliveredKey, sock: SocketKey, f: Flow, bytes: bool)
    requires Undisturbed(capacity, n, before, more, k, sock, f)
    ensures var s, t := Exec(capacity, Boot(n), before), Exec(capacity, Boot(n), before + more);
            CountedByAll(t.cpus, k, bytes) - CountedByAll(s.cpus, k, bytes) ==
            Arrived(capacity, n, before + more, sock, f, bytes, n) - Arrived(capacity, n, before, sock, f, bytes, n)
  {
    var s, t := Exec(capacity, Boot(n), before), Exec(capacity, Boot(n), before + more);
    assert s.cpus[..n] == s.cpus && t.cpus[..n] == t.cpus;
    CountedAreArrivals(capacity, n, before, more, k, sock, f, bytes, n);
  }

  /** The whole pipeline of delivery: for a socket that has its cookie at the first reading
      and keeps it, the run reports exactly the packets that came for the flow on any CPU
      between its first and its last reading, and their payload bytes, but for what was in
      hand or still to be added at either, however full the map. */
  lemma RunReportsArrivals<V>(
    capacity: nat, n: nat, events: seq<Event>, cuts: seq<nat>, dumps: seq<seq<Entry<DeliveredKey, V>>>,
    k: DeliveredKey, sock: SocketKey, f: Flow, more: seq<Event>)
    requires CookieKept(capacity, n, events, cuts, dumps, k, sock, f, more)
    ensures var first, last := events[..cuts[0]], events[..cuts[|cuts| - 1]];
            && Emitted(RunRows(dumps), k, 0) ==
                 Added(capacity, n, last, k, sock, f, false) - Added(capacity, n, first, k, sock, f, false)
            && Emitted(RunRows(dumps), k, 1) ==
                 Added(capacity, n, last, k, sock, f, true) - Added(capacity, n, first, k, sock, f, true)
  {
    var first := events[..cuts[0]];
    RunReportsDeliveries(capacity, n, events, cuts, dumps, k);
    AllCountedAreArrivals(capacity, n, first, more, k, sock, f, false);
    AllCountedAreArrivals(capacity, n, first, more, k, sock, f, true);
  }
}
