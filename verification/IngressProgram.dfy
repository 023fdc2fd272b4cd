/** The ingress program as it is written, run on one CPU without interruption. */
module IngressProgram {
  import opened Bytes
  import opened Protocols
  import opened Frames
  import opened IngressMap

  /** The steps of one run that nothing interrupts. A run takes at most five steps after
      the packet arrives; an idle CPU's further steps change nothing. */
  function Uninterrupted(capacity: nat, s: Kernel, cpu: nat, skb: Skb): Kernel {
    FromLookup(capacity, Step(capacity, s, Arrive(cpu, skb)), cpu)
  }

  function FromLookup(capacity: nat, s: Kernel, cpu: nat): Kernel {
    var inserted := Step(capacity, Step(capacity, s, Advance(cpu)), Advance(cpu));
    Step(capacity, Step(capacity, Step(capacity, inserted, Advance(cpu)), Advance(cpu)), Advance(cpu))
  }

  lemma Overwrites(capacity: nat, keys: set<UdpKey>, cpus: seq<Cpu>, cpu: nat, c: Cpu)
    requires cpu < |cpus|
    ensures Step(capacity, Kernel(keys, cpus[cpu := c]), Advance(cpu)) ==
            Kernel(KeysAfter(capacity, keys, c.pc), cpus[cpu := Advanced(keys, c)])
  {
  }

  /** What is left of one CPU and the entries at the end of an uninterrupted run. */
  function KeysIn(capacity: nat, keys: set<UdpKey>, k: UdpKey): set<UdpKey> {
    if k in keys then keys else KeysAfter(capacity, keys, AtInsert(k, 0))
  }

  function Counted(c: Cpu, k: UdpKey, payload: nat): Cpu {
    var cell := CellOf(c, k);
    c.(pc := Idle, cells := c.cells[k := Cell(cell.packets + 1, cell.bytes + payload)])
  }

  /** What a run leaves of a CPU does not depend on where it was. */
  lemma SameCount(c: Cpu, pc: Pc, k: UdpKey, payload: nat)
    ensures Counted(c.(pc := pc), k, payload) == Counted(c, k, payload)
    ensures Dropped(c.(pc := pc), MapFull) == Dropped(c, MapFull)
  {
  }

  lemma RunEnds(capacity: nat, keys: set<UdpKey>, cpus: seq<Cpu>, cpu: nat, c: Cpu, k: UdpKey, payload: nat)
    requires cpu < |cpus| && c.pc == AtLookup(k, payload)
    ensures var after := KeysIn(capacity, keys, k);
            FromLookup(capacity, Kernel(keys, cpus[cpu := c]), cpu) ==
            Kernel(after, cpus[cpu := if k in after then Counted(c, k, payload) else Dropped(c, MapFull)])
  {
    if k in keys {
      RunFindsEntry(capacity, keys, cpus, cpu, c, k, payload);
    } else {
      RunInserts(capacity, keys, cpus, cpu, c, k, payload);
    }
  }

  lemma RunFindsEntry(capacity: nat, keys: set<UdpKey>, cpus: seq<Cpu>, cpu: nat, c: Cpu, k: UdpKey, payload: nat)
    requires cpu < |cpus| && c.pc == AtLookup(k, payload) && k in keys
    ensures FromLookup(capacity, Kernel(keys, cpus[cpu := c]), cpu) == Kernel(keys, cpus[cpu := Counted(c, k, payload)])
  {
    var c1 := Advanced(keys, c);
    var c2 := Advanced(keys, c1);
    TwoIncrements(c1, keys, k, payload);
    Overwrites(capacity, keys, cpus, cpu, c);
    Overwrites(capacity, keys, cpus, cpu, c1);
    Overwrites(capacity, keys, cpus, cpu, Counted(c, k, payload));
  }

  lemma RunInserts(capacity: nat, keys: set<UdpKey>, cpus: seq<Cpu>, cpu: nat, c: Cpu, k: UdpKey, payload: nat)
    requires cpu < |cpus| && c.pc == AtLookup(k, payload) && k !in keys
    ensures var after := KeysIn(capacity, keys, k);
            FromLookup(capacity, Kernel(keys, cpus[cpu := c]), cpu) ==
            Kernel(after, cpus[cpu := if k in after then Counted(c, k, payload) else Dropped(c, MapFull)])
  {
    var after := KeysIn(capacity, keys, k);
    var c2 := c.(pc := AtRelookup(k, payload));
    Overwrites(capacity, keys, cpus, cpu, c);
    Overwrites(capacity, keys, cpus, cpu, c.(pc := AtInsert(k, payload)));
    var c3 := Advanced(after, c2);
    Overwrites(capacity, after, cpus, cpu, c2);
    var c4 := Advanced(after, c3);
    Overwrites(capacity, after, cpus, cpu, c3);
    Overwrites(capacity, after, cpus, cpu, c4);
    if k in after {
      TwoIncrements(c3, after, k, payload);
    }
  }

  lemma TwoIncrements(c: Cpu, keys: set<UdpKey>, k: UdpKey, payload: nat)
    requires c.pc == AtPackets(k, payload)
    ensures Advanced(keys, Advanced(keys, c)) == Counted(c, k, payload)
  {
    var once := Advanced(keys, c);
    assert CellOf(once, k) == Cell(CellOf(c, k).packets + 1, CellOf(c, k).bytes);
    assert Advanced(keys, once).cells == c.cells[k := Cell(CellOf(c, k).packets + 1, CellOf(c, k).bytes + payload)];
  }

  lemma IdleRests(capacity: nat, s: Kernel, cpu: nat)
    requires cpu < |s.cpus| && s.cpus[cpu].pc.Idle?
    ensures FromLookup(capacity, s, cpu) == s
  {
    assert s.cpus[cpu := s.cpus[cpu]] == s.cpus;
  }

  lemma RunStops(capacity: nat, keys: set<UdpKey>, cpus: seq<Cpu>, cpu: nat, skb: Skb)
    requires cpu < |cpus| && cpus[cpu].pc.Idle? && Classify(skb).Drop?
    ensures Uninterrupted(capacity, Kernel(keys, cpus), cpu, skb)
         == Kernel(keys, cpus[cpu := Dropped(cpus[cpu], Classify(skb).reason)])
  {
    IdleRests(capacity, Step(capacity, Kernel(keys, cpus), Arrive(cpu, skb)), cpu);
  }

  lemma PacketArrives(capacity: nat, keys: set<UdpKey>, cpus: seq<Cpu>, cpu: nat, skb: Skb, k: UdpKey, payload: nat)
    requires cpu < |cpus| && cpus[cpu].pc.Idle? && Classify(skb) == Account(k, payload)
    ensures Step(capacity, Kernel(keys, cpus), Arrive(cpu, skb)) ==
            Kernel(keys, cpus[cpu := cpus[cpu].(pc := AtLookup(k, payload))])
  {
  }

  lemma RunGoesOn(capacity: nat, keys: set<UdpKey>, cpus: seq<Cpu>, cpu: nat, skb: Skb)
    requires cpu < |cpus| && cpus[cpu].pc.Idle? && Classify(skb).Account?
    ensures var v := Classify(skb);
            var after := KeysIn(capacity, keys, v.key);
            Uninterrupted(capacity, Kernel(keys, cpus), cpu, skb) ==
            Kernel(after, cpus[
              cpu := if v.key in after then Counted(cpus[cpu], v.key, v.payload) else Dropped(cpus[cpu], MapFull)])
  {
    var k, payload := Classify(skb).key, Classify(skb).payload;
    PacketArrives(capacity, keys, cpus, cpu, skb, k, payload);
    RunEnds(capacity, keys, cpus, cpu, cpus[cpu].(pc := AtLookup(k, payload)), k, payload);
    SameCount(cpus[cpu], AtLookup(k, payload), k, payload);
  }

  class IngressMaps {
    const capacity: nat
    var keys: set<UdpKey>
    var cpus: seq<Cpu>

    constructor (capacity: nat, n: nat)
      ensures this.capacity == capacity && View() == Boot(n)
    {
      this.capacity := capacity;
      keys := {};
      cpus := seq(n, i => Cpu(Idle, map[], map[]));
    }

    function View(): Kernel
      reads this
    {
      Kernel(keys, cpus)
    }

    method DropPacket(cpu: nat, reason: Reason)
      requires cpu < |cpus| && cpus[cpu].pc.Idle?
      modifies this
      ensures keys == old(keys) && cpus == old(cpus)[cpu := Dropped(old(cpus[cpu]), reason)]
    {
      var counter := DropsOf(cpus[cpu], reason);
      counter := counter + 1;
      var own := cpus[cpu];
      cpus := cpus[cpu := own.(drops := own.drops[reason := counter])];
    }

    /** From the first lookup on: `account_udp4` once the key is built. */
    method CountPacket(cpu: nat, key: UdpKey, payloadBytes: nat)
      requires cpu < |cpus| && cpus[cpu].pc.Idle?
      modifies this
      ensures keys == KeysIn(capacity, old(keys), key)
      ensures cpus == old(cpus)[
                cpu := if key in keys then Counted(old(cpus[cpu]), key, payloadBytes)
                       else Dropped(old(cpus[cpu]), MapFull)]
    {
      var own := cpus[cpu];
      if key !in keys {
        if |keys| < capacity {
          keys := keys + {key};
        }
        if key !in keys {
          DropPacket(cpu, MapFull);
          return;
        }
      }
      var counters := CellOf(own, key);
      counters := counters.(packets := counters.packets + 1);
      counters := counters.(bytes := counters.bytes + payloadBytes);
      cpus := cpus[cpu := own.(cells := own.cells[key := counters])];
    }

    /** `account_udp4` on the bytes from `data` to `data_end`, up to the key. */
    static method AccountUdp4(ifindex: nat, b: seq<byte>) returns (verdict: Verdict)
      ensures verdict == ClassifyLinear(ifindex, b)
    {
      if |b| < ETH_HEADER {
        return Drop(EthBounds);
      }
      if Be16(b, 12) != ETH_P_IP {
        return Drop(NotIp);
      }
      if |b| < ETH_HEADER + IP_HEADER {
        return Drop(IpBounds);
      }
      if b[ETH_HEADER + 9] as nat != IPPROTO_UDP {
        return Drop(NotUdp);
      }
      var ipHeaderBytes := (b[ETH_HEADER] as nat % 16) * 4;
      if ipHeaderBytes < IP_HEADER {
        return Drop(IhlShort);
      }
      var udp := ETH_HEADER + ipHeaderBytes;
      if |b| < udp + UDP_HEADER {
        return Drop(UdpBounds);
      }
      var udpLen := Be16(b, udp + 4);
      var payloadBytes := 0;
      if udpLen >= UDP_HEADER {
        payloadBytes := udpLen - UDP_HEADER;
      }
      var key := UdpKey(AF_INET, IPPROTO_UDP, Be16(b, udp), Be16(b, udp + 2), ifindex,
                        Le32(b, ETH_HEADER + 12), Le32(b, ETH_HEADER + 16));
      return Account(key, payloadBytes);
    }

    method UdpIngress(cpu: nat, skb: Skb)
      requires cpu < |cpus| && cpus[cpu].pc.Idle?
      modifies this
      ensures View() == Uninterrupted(capacity, old(View()), cpu, skb)
    {
      var verdict := Drop(PullFail);
      if !PullFails(skb) {
        verdict := AccountUdp4(skb.ifindex, Linear(skb));
      }
      match verdict {
        case Drop(reason) =>
          RunStops(capacity, keys, cpus, cpu, skb);
          DropPacket(cpu, reason);
        case Account(key, payloadBytes) =>
          RunGoesOn(capacity, keys, cpus, cpu, skb);
          CountPacket(cpu, key, payloadBytes);
      }
    }
  }
}

