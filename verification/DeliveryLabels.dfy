/** The inode and the interface of a delivered entry: when it has them, and whose they are. */
module DeliveryLabels {
  import opened Protocols
  import opened DeliveryMap

  datatype Label = Inode | Interface

  function LabelOf(c: Cell, l: Label): nat {
    if l == Inode then c.inode else c.ifindex
  }

  function Borne(p: Packet, l: Label): nat {
    if l == Inode then p.sock.inode else p.ifindex
  }

  function Else(a: nat, b: nat): nat {
    if a == 0 then b else a
  }

  /** The first label that is not 0 among the packets counted under the key, in order. */
  function FirstBorne(done: seq<Record>, k: DeliveredKey, l: Label): nat {
    if done == [] then 0
    else
      var n := |done| - 1;
      Else(FirstBorne(done[..n], k, l), if done[n].outcome == Counted(k) then Borne(done[n].packet, l) else 0)
  }

  lemma FirstBorneOneMore(done: seq<Record>, r: Record, k: DeliveredKey, l: Label)
    ensures FirstBorne(done + [r], k, l) ==
            Else(FirstBorne(done, k, l), if r.outcome == Counted(k) then Borne(r.packet, l) else 0)
  {
    var more := done + [r];
    assert more[..|more| - 1] == done;
  }

  /** It is there exactly if some counted packet bore one. */
  lemma {:induction false} FirstBorneIff(done: seq<Record>, k: DeliveredKey, l: Label)
    ensures FirstBorne(done, k, l) != 0 <==>
            exists i :: 0 <= i < |done| && done[i].outcome == Counted(k) && Borne(done[i].packet, l) != 0
  {
    if done != [] {
      var n := |done| - 1;
      FirstBorneIff(done[..n], k, l);
      if i :| 0 <= i < n && done[..n][i].outcome == Counted(k) && Borne(done[..n][i].packet, l) != 0 {
        assert done[i].outcome == Counted(k) && Borne(done[i].packet, l) != 0;
      }
      if i :| 0 <= i < |done| && done[i].outcome == Counted(k) && Borne(done[i].packet, l) != 0 {
        assert i < n ==> done[..n][i] == done[i];
      }
    }
  }

  /** The CPU is busy with a packet of the entry, and may or may not have stored its label. */
  predicate Busy(pc: Pc, k: DeliveredKey) {
    (pc.AtRelookup? || pc.AtPackets? || pc.AtRest?) && pc.key == k
  }

  /** What a cell shows: the first label of the packets counted on its CPU.  While the CPU
      is busy with a packet, that packet's own label counts or does not count yet. */
  ghost predicate Shows(c: Cpu, k: DeliveredKey, l: Label) {
    var first := FirstBorne(c.done, k, l);
    var shown := LabelOf(CellOf(c, k), l);
    if !Busy(c.pc, k) then shown == first
    else if c.pc.AtRest? then
      && c.done != [] && c.done[|c.done| - 1] == Record(c.pc.packet, Counted(k))
      && (shown == first || shown == FirstBorne(c.done[..|c.done| - 1], k, l))
    else shown == first || shown == Else(first, Borne(c.pc.packet, l))
  }

  ghost predicate AllShow(c: Cpu, l: Label) {
    forall k :: Shows(c, k, l)
  }

  lemma FinishShows(c: Cpu, p: Packet, o: Outcome, k: DeliveredKey, l: Label)
    requires !o.Counted? && LabelOf(CellOf(c, k), l) == FirstBorne(c.done, k, l)
    ensures Shows(Finish(c, p, o), k, l)
  {
    FirstBorneOneMore(c.done, Record(p, o), k, l);
  }

  lemma AccountShows(c: Cpu, p: Packet, cookie: bv64, k: DeliveredKey, l: Label)
    requires Shows(c, k, l) && !Busy(c.pc, k)
    ensures Shows(Account(c, p, cookie), k, l)
  {
    FinishShows(c, p, Skipped, k, l);
    FinishShows(c, p, NoCookie, k, l);
  }

  /** Nothing was counted under a key that the CPU has no cell for. */
  lemma {:induction false} NoneCounted(done: seq<Record>, k: DeliveredKey, l: Label)
    requires Tally(done, k) == 0
    ensures FirstBorne(done, k, l) == 0
  {
    if done != [] {
      NoneCounted(done[..|done| - 1], k, l);
    }
  }

  lemma InsertShows(capacity: nat, s: Kernel, c: Cpu, k: DeliveredKey, l: Label)
    requires Shows(c, k, l) && c.pc.AtInsert? && c.cells.Keys <= s.keys
    ensures Shows(CpuAfter(capacity, s, c), k, l)
  {
    assert Inserts(capacity, s.keys, c.pc) ==> c.pc.key !in c.cells;
  }

  lemma CountShows(capacity: nat, s: Kernel, c: Cpu, k: DeliveredKey, l: Label)
    requires Shows(c, k, l) && c.pc.AtPackets?
    ensures Shows(CpuAfter(capacity, s, c), k, l)
  {
    var r := Record(c.pc.packet, Counted(c.pc.key));
    FirstBorneOneMore(c.done, r, k, l);
    assert (c.done + [r])[..|c.done|] == c.done;
  }

  lemma RestShows(capacity: nat, s: Kernel, c: Cpu, k: DeliveredKey, l: Label)
    requires Shows(c, k, l) && c.pc.AtRest?
    ensures Shows(CpuAfter(capacity, s, c), k, l)
  {
    if c.pc.key == k {
      var n := |c.done| - 1;
      assert c.done == c.done[..n] + [c.done[n]];
      FirstBorneOneMore(c.done[..n], c.done[n], k, l);
    }
  }

  lemma RefusedShows(c: Cpu, key: DeliveredKey, p: Packet, k: DeliveredKey, l: Label)
    requires Shows(c, k, l) && Tallied(c, k) && c.pc == AtRelookup(key, p) && key !in c.cells
    ensures Shows(Finish(c, p, NoRoom(key)), k, l)
  {
    if key == k {
      NoneCounted(c.done, k, l);
    }
    FinishShows(c, p, NoRoom(key), k, l);
  }

  lemma ShowsStep(capacity: nat, s: Kernel, c: Cpu, k: DeliveredKey, l: Label)
    requires Shows(c, k, l) && Tallied(c, k) && c.cells.Keys <= s.keys
    ensures Shows(CpuAfter(capacity, s, c), k, l)
  {
    match c.pc
    case AtCookieLookup(p) => CookieShows(capacity, s, c, k, l);
    case AtCookieRelookup(p) => CookieShows(capacity, s, c, k, l);
    case AtInsert(key, p) => InsertShows(capacity, s, c, k, l);
    case AtRelookup(key, p) => RelookupShows(capacity, s, c, k, l);
    case AtPackets(_, _) => CountShows(capacity, s, c, k, l);
    case AtRest(_, _) => RestShows(capacity, s, c, k, l);
    case _ => OtherShows(capacity, s, c, k, l);
  }

  lemma CookieShows(capacity: nat, s: Kernel, c: Cpu, k: DeliveredKey, l: Label)
    requires Shows(c, k, l) && (c.pc.AtCookieLookup? || c.pc.AtCookieRelookup?)
    ensures Shows(CpuAfter(capacity, s, c), k, l)
  {
    AccountShows(c, c.pc.packet, CookieOf(s.cookies, c.pc.packet.sock), k, l);
  }

  lemma RelookupShows(capacity: nat, s: Kernel, c: Cpu, k: DeliveredKey, l: Label)
    requires Shows(c, k, l) && Tallied(c, k) && c.cells.Keys <= s.keys && c.pc.AtRelookup?
    ensures Shows(CpuAfter(capacity, s, c), k, l)
  {
    if c.pc.key !in s.keys {
      RefusedShows(c, c.pc.key, c.pc.packet, k, l);
    }
  }

  lemma OtherShows(capacity: nat, s: Kernel, c: Cpu, k: DeliveredKey, l: Label)
    requires Shows(c, k, l) && (c.pc.Idle? || c.pc.AtCookieInsert? || c.pc.AtLookup?)
    ensures Shows(CpuAfter(capacity, s, c), k, l)
  {
  }

  /** In every reachable state, on every CPU, for every entry: the inode and the interface
      of a cell are each the first that a packet counted there bore. */
  lemma {:induction false} CellsShowTheFirst(capacity: nat, n: nat, events: seq<Event>, cpu: nat, l: Label)
    requires cpu < n
    ensures AllShow(Exec(capacity, Boot(n), events).cpus[cpu], l)
  {
    if events != [] {
      var before, e := events[..|events| - 1], events[|events| - 1];
      CellsShowTheFirst(capacity, n, before, cpu, l);
      EveryPacketHasOneOutcome(capacity, n, before, cpu);
      AlwaysOnlyExisting(capacity, n, before);
      var s := Exec(capacity, Boot(n), before);
      var c := s.cpus[cpu];
      forall k ensures Shows(Exec(capacity, Boot(n), events).cpus[cpu], k, l) {
        assert Shows(c, k, l) && Tallied(c, k);
        if e.Advance? && e.cpu == cpu {
          ShowsStep(capacity, s, c, k, l);
        }
      }
    }
  }

  // --------------------------------------------------------------- what the dump reads

  /** A packet counted under the key that the CPU is done with. */
  predicate Done(c: Cpu, k: DeliveredKey, i: int) {
    0 <= i < |c.done| && c.done[i].outcome == Counted(k) && (c.pc.AtRest? ==> i < |c.done| - 1)
  }

  lemma DoneShows(c: Cpu, k: DeliveredKey, i: nat, l: Label)
    requires Shows(c, k, l) && Done(c, k, i) && Borne(c.done[i].packet, l) != 0
    ensures LabelOf(CellOf(c, k), l) != 0
  {
    FirstBorneIff(c.done, k, l);
    if c.pc.AtRest? && c.pc.key == k {
      var less := c.done[..|c.done| - 1];
      assert less[i] == c.done[i];
      FirstBorneIff(less, k, l);
    }
  }

  lemma {:induction false} FoldLabel(cells: seq<Cell>, l: Label)
    ensures LabelOf(Fold(cells), l) != 0 <==> exists i :: 0 <= i < |cells| && LabelOf(cells[i], l) != 0
    ensures LabelOf(Fold(cells), l) != 0 ==>
              exists i :: 0 <= i < |cells| && LabelOf(cells[i], l) == LabelOf(Fold(cells), l)
  {
    if cells != [] {
      var n := |cells| - 1;
      FoldLabel(cells[..n], l);
      if i :| 0 <= i < n && LabelOf(cells[..n][i], l) == LabelOf(Fold(cells[..n]), l) {
        assert cells[i] == cells[..n][i];
      }
      if i :| 0 <= i < |cells| && LabelOf(cells[i], l) != 0 {
        assert i < n ==> cells[..n][i] == cells[i];
      }
    }
  }

  /** As soon as any CPU is done with a packet that bore one, what a dump reads of the entry
      shows an inode, and likewise an interface. */
  lemma ReadingShowsALabel(capacity: nat, n: nat, events: seq<Event>, k: DeliveredKey, cpu: nat, i: nat, l: Label)
    requires cpu < n && Done(Exec(capacity, Boot(n), events).cpus[cpu], k, i)
    requires Borne(Exec(capacity, Boot(n), events).cpus[cpu].done[i].packet, l) != 0
    ensures LabelOf(Fold(CellsOf(Exec(capacity, Boot(n), events).cpus, k)), l) != 0
  {
    var t := Exec(capacity, Boot(n), events);
    CellsShowTheFirst(capacity, n, events, cpu, l);
    assert Shows(t.cpus[cpu], k, l);
    DoneShows(t.cpus[cpu], k, i, l);
    FoldLabel(CellsOf(t.cpus, k), l);
    assert LabelOf(CellsOf(t.cpus, k)[cpu], l) != 0;
  }

  /** It is then the inode of the packet's own socket, through any evictions, unless two
      sockets drew the same cookie: the row finds the processes that hold the socket. */
  lemma ReadingShowsItsSocket(capacity: nat, n: nat, events: seq<Event>, k: DeliveredKey, cpu: nat, i: nat)
    requires cpu < n && Done(Exec(capacity, Boot(n), events).cpus[cpu], k, i)
    requires Exec(capacity, Boot(n), events).cpus[cpu].done[i].packet.sock.inode != 0
    requires NoneDrawnTwice(Drawn(capacity, n, events))
    ensures var t := Exec(capacity, Boot(n), events);
            Fold(CellsOf(t.cpus, k)).inode == t.cpus[cpu].done[i].packet.sock.inode
  {
    ReadingShowsALabel(capacity, n, events, k, cpu, i, Inode);
    ReadingNamesItsSocket(capacity, n, events, k);
  }
}
