/** The receive hook on one CPU that nothing interrupts: what becomes of a packet. */
module DeliveryProgram {
  import opened Wrappers
  import opened Protocols
  import opened DeliveryMap
  import CookieMap

  /** What the CPU sees: the two shared maps, and its own part. */
  datatype Alone = Alone(cookies: map<SocketKey, bv64>, keys: set<DeliveredKey>, cpu: Cpu)

  function Next(capacity: nat, a: Alone, d: Draw): Alone {
    Alone(CookiesAfter(a.cookies, a.cpu.pc, d), KeysAfter(capacity, a.keys, a.cpu.pc),
          CpuAfter(capacity, Kernel(a.cookies, a.keys, []), a.cpu))
  }

  function Steps(capacity: nat, a: Alone, d: Draw, n: nat): Alone
    decreases n
  {
    if n == 0 then a else Steps(capacity, Next(capacity, a, d), d, n - 1)
  }

  /** The same steps, of the CPU among the others. */
  function Advances(capacity: nat, s: Kernel, cpu: nat, d: Draw, n: nat): Kernel
    decreases n
  {
    if n == 0 then s else Advances(capacity, Step(capacity, s, Advance(cpu, d)), cpu, d, n - 1)
  }

  function Among(a: Alone, cpus: seq<Cpu>, cpu: nat): Kernel
    requires cpu < |cpus|
  {
    Kernel(a.cookies, a.keys, cpus[cpu := a.cpu])
  }

  lemma {:induction false} StepsAmong(capacity: nat, a: Alone, cpus: seq<Cpu>, cpu: nat, d: Draw, n: nat)
    requires cpu < |cpus|
    ensures Advances(capacity, Among(a, cpus, cpu), cpu, d, n) == Among(Steps(capacity, a, d, n), cpus, cpu)
    decreases n
  {
    if n > 0 {
      var b := Next(capacity, a, d);
      StepsAmong(capacity, b, cpus, cpu, d, n - 1);
      assert cpus[cpu := a.cpu][cpu := b.cpu] == cpus[cpu := b.cpu];
      assert Step(capacity, Among(a, cpus, cpu), Advance(cpu, d)) == Among(b, cpus, cpu);
    }
  }

  lemma {:induction false} Rests(capacity: nat, a: Alone, d: Draw, n: nat)
    requires a.cpu.pc.Idle?
    ensures Steps(capacity, a, d, n) == a
    decreases n
  {
    if n > 0 {
      assert Next(capacity, a, d) == a;
      Rests(capacity, a, d, n - 1);
    }
  }

  lemma Three(capacity: nat, a: Alone, d: Draw, n: nat)
    requires n >= 3
    ensures var b := Next(capacity, Next(capacity, Next(capacity, a, d), d), d);
            Steps(capacity, a, d, n) == Steps(capacity, b, d, n - 3)
  {
    var b := Next(capacity, a, d);
    assert Steps(capacity, a, d, n) == Steps(capacity, b, d, n - 1);
    assert Steps(capacity, b, d, n - 1) == Steps(capacity, Next(capacity, b, d), d, n - 2);
  }

  // -------------------------------------------------------------------- the two maps

  /** The cookie of the packet's socket: the stored one, or the one proposed now if the map
      admits it, or none. */
  function CookieFor(cookies: map<SocketKey, bv64>, p: Packet, d: Draw): bv64 {
    if p.sock in cookies then cookies[p.sock] else if d.admitted then CookieMap.Candidate(d) else 0
  }

  function OutcomeOf(capacity: nat, cookie: bv64, keys: set<DeliveredKey>, p: Packet): Outcome {
    match p.flow
    case None => Skipped
    case Some(f) =>
      if cookie == 0 then NoCookie
      else
        var k := DeliveredKey(cookie as nat, f.srcIp4, f.dstIp4, f.srcPort, f.dstPort, 2, 17);
        if k in keys || |keys| < capacity then Counted(k) else NoRoom(k)
  }

  function Labelled(was: nat, borne: nat): nat {
    if was == 0 then borne else was
  }

  /** The cell of a counted packet: one packet and its payload more, and the labels it
      bears if the cell had none. */
  predicate AddsPacket(was: Cell, now: Cell, p: Packet) {
    && now.packets == was.packets + 1 && now.bytes == was.bytes + (if p.udpLen < 8 then 0 else p.udpLen - 8)
    && now.inode == Labelled(was.inode, p.sock.inode) && now.ifindex == Labelled(was.ifindex, p.ifindex)
  }

  /** The CPU is idle again, with one packet more dealt with, and the maps are as the outcome
      says: `was` is the CPU before, wherever it was in its run. */
  ghost predicate Ends(was: Cpu, keys: set<DeliveredKey>, b: Alone, p: Packet, o: Outcome) {
    && b.cpu.pc.Idle? && b.cpu.done == was.done + [Record(p, o)]
    && b.keys == (if o.Counted? then keys + {o.key} else keys)
    && (forall k :: !(o == Counted(k)) ==> CellOf(b.cpu, k) == CellOf(was, k))
    && (o.Counted? ==> AddsPacket(CellOf(was, o.key), CellOf(b.cpu, o.key), p))
  }

  lemma EndsFromAnywhere(was: Cpu, pc: Pc, keys: set<DeliveredKey>, b: Alone, p: Packet, o: Outcome)
    requires Ends(was.(pc := pc), keys, b, p, o)
    ensures Ends(was, keys, b, p, o)
  {
    forall k | !(o == Counted(k)) ensures CellOf(b.cpu, k) == CellOf(was, k) {
      assert CellOf(was.(pc := pc), k) == CellOf(was, k);
    }
    if o.Counted? {
      assert CellOf(was.(pc := pc), o.key) == CellOf(was, o.key);
    }
  }

  /** From the increment on. */
  lemma Increments(capacity: nat, a: Alone, d: Draw, k: DeliveredKey, p: Packet, n: nat)
    requires a.cpu.pc == AtPackets(k, p) && k in a.keys && n >= 2
    ensures var b := Steps(capacity, a, d, n);
            Ends(a.cpu, a.keys, b, p, Counted(k)) && b.cookies == a.cookies
  {
    var b := Next(capacity, a, d);
    var c := Next(capacity, b, d);
    assert a.keys + {k} == a.keys;
    Rests(capacity, c, d, n - 2);
  }

  /** From the lookup of the entry on. */
  lemma FindsEntry(capacity: nat, a: Alone, d: Draw, k: DeliveredKey, p: Packet, n: nat)
    requires a.cpu.pc == AtLookup(k, p) && k in a.keys && n >= 3
    ensures var b := Steps(capacity, a, d, n);
            Ends(a.cpu, a.keys, b, p, Counted(k)) && b.cookies == a.cookies
  {
    Increments(capacity, Next(capacity, a, d), d, k, p, n - 1);
  }

  lemma MakesEntry(capacity: nat, a: Alone, d: Draw, k: DeliveredKey, p: Packet, n: nat)
    requires a.cpu.pc == AtLookup(k, p) && k !in a.keys && |a.keys| < capacity && n >= 5
    requires k !in a.cpu.cells
    ensures var b := Steps(capacity, a, d, n);
            Ends(a.cpu, a.keys, b, p, Counted(k)) && b.cookies == a.cookies
  {
    var inserts := Next(capacity, a, d);
    var relooks := Next(capacity, inserts, d);
    var counts := Next(capacity, relooks, d);
    assert counts.cpu.pc == AtPackets(k, p) && CellOf(counts.cpu, k) == Cell(0, 0, p.sock.inode, p.ifindex);
    Three(capacity, a, d, n);
    Increments(capacity, counts, d, k, p, n - 3);
    assert counts.keys + {k} == a.keys + {k};
  }

  lemma FindsNoRoom(capacity: nat, a: Alone, d: Draw, k: DeliveredKey, p: Packet, n: nat)
    requires a.cpu.pc == AtLookup(k, p) && k !in a.keys && |a.keys| >= capacity && n >= 3
    ensures var b := Steps(capacity, a, d, n);
            Ends(a.cpu, a.keys, b, p, NoRoom(k)) && b.cookies == a.cookies
  {
    var relooks := Next(capacity, Next(capacity, a, d), d);
    Three(capacity, a, d, n);
    Rests(capacity, Next(capacity, relooks, d), d, n - 3);
  }

  /** Once the cookie is known. */
  lemma Accounted(capacity: nat, a: Alone, d: Draw, c: Cpu, p: Packet, cookie: bv64, n: nat)
    requires a.cpu == Account(c, p, cookie) && n >= 5 && c.cells.Keys <= a.keys
    ensures var b := Steps(capacity, a, d, n);
            Ends(c, a.keys, b, p, OutcomeOf(capacity, cookie, a.keys, p)) && b.cookies == a.cookies
  {
    if p.flow.None? || cookie == 0 {
      Rests(capacity, a, d, n);
    } else {
      AccountedByKey(capacity, a, d, p, a.cpu.pc.key, n);
      EndsFromAnywhere(c, a.cpu.pc, a.keys, Steps(capacity, a, d, n), p, OutcomeOf(capacity, cookie, a.keys, p));
    }
  }

  lemma AccountedByKey(capacity: nat, a: Alone, d: Draw, p: Packet, k: DeliveredKey, n: nat)
    requires a.cpu.pc == AtLookup(k, p) && n >= 5 && a.cpu.cells.Keys <= a.keys
    ensures var b := Steps(capacity, a, d, n);
            && Ends(a.cpu, a.keys, b, p, if k in a.keys || |a.keys| < capacity then Counted(k) else NoRoom(k))
            && b.cookies == a.cookies
  {
    if k in a.keys {
      FindsEntry(capacity, a, d, k, p, n);
    } else if |a.keys| < capacity {
      MakesEntry(capacity, a, d, k, p, n);
    } else {
      FindsNoRoom(capacity, a, d, k, p, n);
    }
  }

  /** The cookie map afterwards. */
  function CookiesThen(cookies: map<SocketKey, bv64>, p: Packet, d: Draw): map<SocketKey, bv64> {
    if p.sock !in cookies && d.admitted then cookies[p.sock := CookieMap.Candidate(d)] else cookies
  }

  function Takes(a: Alone, p: Packet): Alone {
    a.(cpu := a.cpu.(pc := AtCookieLookup(p)))
  }

  lemma FindsCookie(capacity: nat, a: Alone, d: Draw, p: Packet, n: nat)
    requires p.sock in a.cookies && n >= 6 && a.cpu.cells.Keys <= a.keys
    ensures var b := Steps(capacity, Takes(a, p), d, n);
            Ends(a.cpu, a.keys, b, p, OutcomeOf(capacity, a.cookies[p.sock], a.keys, p)) && b.cookies == a.cookies
  {
    var c := Takes(a, p).cpu;
    var o := OutcomeOf(capacity, a.cookies[p.sock], a.keys, p);
    Accounted(capacity, Next(capacity, Takes(a, p), d), d, c, p, a.cookies[p.sock], n - 1);
    EndsFromAnywhere(a.cpu, c.pc, a.keys, Steps(capacity, Takes(a, p), d, n), p, o);
  }

  lemma DrawsCookie(capacity: nat, a: Alone, d: Draw, p: Packet, n: nat)
    requires p.sock !in a.cookies && n >= 8 && a.cpu.cells.Keys <= a.keys
    ensures var b := Steps(capacity, Takes(a, p), d, n);
            && Ends(a.cpu, a.keys, b, p, OutcomeOf(capacity, CookieFor(a.cookies, p, d), a.keys, p))
            && b.cookies == CookiesThen(a.cookies, p, d)
  {
    var relooks := Next(capacity, Next(capacity, Takes(a, p), d), d);
    var cookie := CookieFor(a.cookies, p, d);
    Three(capacity, Takes(a, p), d, n);
    Relooks(capacity, a, d, p);
    Accounted(capacity, Next(capacity, relooks, d), d, relooks.cpu, p, cookie, n - 3);
    EndsFromAnywhere(
      a.cpu, relooks.cpu.pc, a.keys, Steps(capacity, Takes(a, p), d, n), p, OutcomeOf(capacity, cookie, a.keys, p));
  }

  lemma Relooks(capacity: nat, a: Alone, d: Draw, p: Packet)
    requires p.sock !in a.cookies
    ensures var relooks := Next(capacity, Next(capacity, Takes(a, p), d), d);
            && relooks == Alone(CookiesThen(a.cookies, p, d), a.keys, a.cpu.(pc := AtCookieRelookup(p)))
            && CookieOf(relooks.cookies, p.sock) == CookieFor(a.cookies, p, d)
  {
  }

  /** On any CPU, among any others, in any state of the maps: a packet that nothing
      interrupts is skipped exactly if its headers cannot be used, goes without a cookie
      exactly if its socket has none and gets none, finds no room exactly if its entry
      does not exist and the map is full, and is else counted under its own flow and its
      socket's cookie; and nothing else of the maps changes. */
  lemma RunEnds(capacity: nat, s: Kernel, cpu: nat, p: Packet, d: Draw)
    requires cpu < |s.cpus| && s.cpus[cpu].pc.Idle? && s.cpus[cpu].cells.Keys <= s.keys
    ensures var t := Advances(capacity, Step(capacity, s, Arrive(cpu, p)), cpu, d, 8);
            var o := OutcomeOf(capacity, CookieFor(s.cookies, p, d), s.keys, p);
            && |t.cpus| == |s.cpus| && t.cookies == CookiesThen(s.cookies, p, d)
            && Ends(s.cpus[cpu], s.keys, Alone(t.cookies, t.keys, t.cpus[cpu]), p, o)
            && forall i :: 0 <= i < |s.cpus| && i != cpu ==> t.cpus[i] == s.cpus[i]
  {
    var a := Alone(s.cookies, s.keys, s.cpus[cpu]);
    StepsAmong(capacity, Takes(a, p), s.cpus, cpu, d, 8);
    if p.sock in s.cookies {
      FindsCookie(capacity, a, d, p, 8);
    } else {
      DrawsCookie(capacity, a, d, p, 8);
    }
  }
}
