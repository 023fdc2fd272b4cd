# Verified model of the UDP and TCP traffic analyzer

The analyzer counts packets and bytes in eBPF maps, one cell per CPU, and a Python
collector dumps those maps again and again, sums the cells by flow, and writes what grew
since the last dump as rows with a measured interval.  This project models that pipeline
and proves that the rows are an honest account of the traffic.

`dafny verify dfyconfig.toml` checks everything.  The modules, from the bottom up:

* **The rows of a checkpoint.** `Checkpoint` states what one checkpoint computes as a
  function of two dumps; `CheckpointEngine` is the stateful collector with its three
  loops, proved to compute it; `CheckpointRuns` and `CheckpointSplits` prove what whole
  runs emit.  The engine is written once and stands for its four copies in the source.
* **The kernel.** `Frames`, `IngressMap`, `IngressLedger`, `IngressRows` and
  `IngressProgram` cut the ingress program into the steps at which it touches shared
  maps and let any number of CPUs interleave.  `CookieMap` and `DeliveryMap` do the same
  for the kprobe receive hook; `DeliveryRows` and `DeliveryArrivals` follow its packets
  to the rows, `DeliveryLabels` its inodes and interfaces, and `DeliveryProgram` is one
  run of it that nothing interrupts.  `CookieBits` are the bits of a cookie.
  `ChannelHooks`, `PerCpuValue`, `ChannelRuns`, `ChannelEntries` and `ChannelLiveness` run
  the TCP and UDP channel hooks over an LRU map together with their collector, with
  evictions, reloads and restarts at any moment.
* **The formats.** `Bytes`, `StructCodec`, `CLayout`, `MapLayouts`, `KeyParsing` and
  `ValueParsing` go from C structs to parsed keys and values; `Addresses` covers the two ways an address is printed.
* **The collectors.** `CheckpointClock`, `IngressSamples`, `IngressCollector` and
  `ChannelCollectors` turn rows into samples: interval, labels, attribution, filter.
  `PrintedTime`, `IngressReports` and `ChannelReports` say exactly which samples are
  written, field by field.
  `IngressAccounts`, `DeliveredAccounts` and `ChannelAccounts` prove what the samples of
  a run add up to, read by their printed labels alone.  `IngressPipeline`,
  `DeliveryPipeline` and `ChannelPipeline` join all that: what was printed against what
  the hooks saw.
* **Starting and stopping.** `Loaders` has the two C loaders with every failure
  position, `Attribution` the mode machine of the ingress collector, `MapLookup` the
  choice of its map, `UnitFiles` the reading of unit files.

## What the proofs assume

* The kernel's map operations keep their documented contracts.  An insert into the plain
  hash maps fails only if the key is there or the map is full; the LRU map may evict any
  entry at any moment.
* A channel hook's run over its LRU map is one step.  In the ingress and receive hooks
  every access to a shared map is a step of its own.
* A dump copies each entry at one moment, entries at different moments. The ingress and
  delivered maps never delete, so a dump lists each of their keys at most once; a dump of
  a channel map may list a key again.
* Counters are unbounded: 64-bit wrap-around is excluded.
* What one call returns is unbounded where nothing else is said.  `EvictionBreaksNextRowIff`
  takes a bound: for the C `int` of the hooks it is 2147483647, and for the UDP hook the
  largest datagram.
* While a collector runs, interface names do not change.  What `/proc` and the socket
  inventory say may change from row to row.
* The source sums, compares, labels and filters in one loop per map.  Here the engine
  emits the rows, and a second loop labels and filters them in the same order.

## What the proofs found

Each of these is proved, with a concrete instance or an exact condition.

* A UDP datagram whose payload and IP options together are shorter than 40 bytes is not
  counted: the frame lacks the 82 bytes that are pulled first
  (`Frames.ShortDatagramsGoUncounted`).
* A later fragment of a UDP datagram is counted under two bytes of its payload as the
  source port, two as the destination port and two as the length: the ingress program
  does not look at the fragment offset (`Frames.AccountedAsItselfIff`).
* A row can have more than 65527 bytes for each packet, or bytes and no packet, exactly if
  a CPU was between its two increments, with payload still to add, when the dump before
  read the flow (`IngressRows.RowsObeyByteBoundIff`).
* The liveness contract of channel rows can fail at the next checkpoint because the entry
  may be evicted and recreated between two dumps: with bytes and no packets exactly if the
  baseline's calls were not all of the largest size, with packets and no bytes exactly if
  one was of more than one byte (`ChannelLiveness.EvictionBreaksNextRowIff`).
* A dump that lists a channel flow n times reports all of its entry n - 1 times more
  (`ChannelRuns.ListedAgainIsReportedAgain`), and later rows are short of it until the
  entry has grown n-fold (`ChannelRuns.ExcessIsSwallowed`).
* Which pid a row is attributed to depends on the order of the CPUs exactly if two CPUs
  have different nonzero ones (`PerCpuValue.LabelsIgnoreCpuOrderIff`).
* The legacy heuristic never selects a socket listed in `/proc/net/udp6`, although
  dual-stack sockets receive IPv4 (`Addresses.LegacyMatchNeverIpv6`).
* A socket held by several processes has its delivered packets written once for each of
  them (`DeliveredAccounts.DeliveredOnceIffUnshared`).
* Two UDP flows of one socket can print alike (`ChannelCollectors.PrintAlikeIff`).
* A clock that is set back makes a run overstate its length by what it was set back, less
  under 1 ms for each checkpoint (`CheckpointClock.SetBacksAreReported`).
* `--delivery-attribution auto` still refuses to start for a map id that is not positive
  or a hook that does not exist (`Attribution.AutoStartsIff`).
* Closing deletes the tc filter at the collector's preference even if the collector was
  told not to attach one (`Attribution.Attributor.Close`).
* A channel loader whose first line is not a status is left running
  (`Attribution.ChannelAttachment.Attach`).
* A file of unit lines without a last newline loses an empty last logical line
  (`UnitFiles.JoiningInvertsUnterminatedIff`).

## Model

| member | source | states |
|---|---|---|
| CheckpointEngine.Engine.ReadFlows | src/udp_analyzer/ebpf.py:565-626 | One checkpoint: `previous` becomes exactly the by-identity sum of the dump, and the rows are the stateless diff of the last two sums |
| CheckpointEngine.Engine.SumByIdentity | src/udp_analyzer/ebpf.py:575-584 | First loop: totals, first entries and their insertion order are those of the dump |
| CheckpointEngine.Engine.DropStale | src/udp_analyzer/ebpf.py:586-590 | Second loop: exactly the baselines of flows that are gone are forgotten |
| CheckpointEngine.Engine.EmitGrown | src/udp_analyzer/tcp_channel.py:443-477 | Third loop: every baseline is replaced, and a row is emitted for each flow that had one and grew |
| CheckpointEngine.SameRowsWithoutStale | src/udp_analyzer/ebpf.py:653-668 | Forgetting stale baselines first changes no row |
| CheckpointEngine.BaselineIsBounded | src/udp_analyzer/ebpf.py:586-590 | The baseline never holds more flows than the last dump had entries |
| CheckpointEngine.OneMoreEntry | src/udp_analyzer/ebpf.py:576-584 | What one more raw entry does to the sums, the order and the first entries |
| Checkpoint.IdentitiesAreTheListed | src/udp_analyzer/ebpf.py:574-584 | The identities of a dump are the listed ones, each once |
| Checkpoint.IdentitiesInOrder | src/udp_analyzer/ebpf.py:574-584 | And they come in the order of their first entries |
| Checkpoint.FirstEntryIsFirst | src/udp_analyzer/ebpf.py:584-584 | The entry that labels a row is the first of its identity in the dump |
| CheckpointRuns.Collect | src/udp_analyzer/cli.py:240-250 | Over a whole run the carried state is the sum of the last dump, and the rows are the diffs of consecutive dumps |
| CheckpointRuns.RowsAreExact | src/udp_analyzer/ebpf.py:592-625 | A row for exactly the flows that had a baseline, are still listed and grew; exact growth, one row each |
| CheckpointRuns.EmittedByOneCheckpoint | src/udp_analyzer/ebpf.py:603-626 | A checkpoint emits the clamped growth between two dumps for each flow and counter, and a first checkpoint nothing |
| CheckpointRuns.Telescoping | src/udp_analyzer/ebpf.py:586-626 | Over any run, the total for a flow is the sum of positive parts over consecutive dumps that both list it |
| CheckpointRuns.SteadyStretch | src/udp_analyzer/ebpf.py:608-611 | While a flow stays and its counter does not fall, the total is last reading minus first |
| CheckpointRuns.VanishAndReturn | src/udp_analyzer/ebpf.py:586-602 | A flow that vanishes and returns is seeded again: the gap contributes nothing |
| CheckpointRuns.NonInterference | src/udp_analyzer/ebpf.py:639-702 | Removing every other flow from every dump leaves the rows of one flow exactly as they were |
| CheckpointRuns.RowsOfOneFlow | src/udp_analyzer/ebpf.py:647-668 | The same for one checkpoint seen from a collector that only knows that flow |
| CheckpointSplits.PermutedDump | tests/test_checkpoint_aggregation.py:1-14 | A reordered dump has the same flows with the same sums |
| CheckpointSplits.SplitEntry | tests/test_checkpoint_aggregation.py:1-14 | An entry split over several raw entries of its identity with the same sum has the same flows |
| CheckpointSplits.SameEmission | src/udp_analyzer/ebpf.py:567-584 | Two dumps with the same sums emit the same deltas and leave the same baseline |
| CheckpointSplits.SameEmissionOverRuns | src/udp_analyzer/ebpf.py:567-626 | The same over whole runs, dump by dump |
| CheckpointSplits.NestedSumsAreOneSum | src/udp_analyzer/ebpf.py:749-768 | The parser's per-CPU sum followed by the collector's sum is one flat sum over all cells of the flow |
| CheckpointSplits.CpuSumConcat | src/udp_analyzer/ebpf.py:749-768 | Splitting a value over more CPUs keeps the parser's sum |
| PerCpuValue.ParsePerCpu | src/udp_analyzer/tcp_channel.py:648-683 | The parser's loop: exact counter sums, earliest nonzero start, latest time, first nonzero pid |
| PerCpuValue.FoldSums | src/udp_analyzer/tcp_channel.py:660-671 | Counters of the folded value are exact sums over the CPUs |
| PerCpuValue.FoldEarliestStart | src/udp_analyzer/tcp_channel.py:731-736 | `start_ns` is the least nonzero start, and 0 exactly when all are 0 |
| PerCpuValue.FoldLatest | src/udp_analyzer/tcp_channel.py:668-668 | `last_ns` is the greatest |
| PerCpuValue.FoldLabels | src/udp_analyzer/tcp_channel.py:669-671 | pid, ifindex and state are each the first nonzero one in CPU order |
| PerCpuValue.FoldIgnoresCpuOrder | src/udp_analyzer/tcp_channel.py:660-671 | Counters and times do not depend on the order of the CPUs |
| PerCpuValue.LabelsIgnoreCpuOrderIff | src/udp_analyzer/tcp_channel.py:669-671 | For any number of CPUs, pid, ifindex and state are each the same in every order of the CPUs if and only if no two CPUs have different nonzero ones |
| ChannelHooks.ChannelMap.AccountFlow | bpf/tcp_channel.bpf.c:86-132 | One accounted call: counters add up, the first start, pid and ifindex stick, an absent entry is created |
| ChannelHooks.ChannelMap.UpdateTcpState | bpf/tcp_channel.bpf.c:134-149 | A state change touches only an entry that exists, and only its state and time |
| ChannelHooks.ChannelMap.Hook | bpf/tcp_channel.bpf.c:151-201 | The five attached programs refine the step of the run system, which counts what `ChannelEntries.WhatCounts` says |
| ChannelEntries.WhatCounts | bpf/udp_channel.bpf.c:141-175 | For every flow, counter, call, result and flags, from literals: an entry moves by the bytes and by one call if the call is on its flow, succeeded, and was no peek and no error queue read, and else not at all; it is made exactly by such a call that the map admits |
| ChannelEntries.EntriesRememberTheirCalls | bpf/tcp_channel.bpf.c:100-149 | In every run, each CPU's value remembers exactly the runs that wrote to it since the entry was made: the time of the last, the first pid, start and interface that is not 0, the last state set, and the sum of what they added |
| ChannelEntries.ReadingNamesACaller | src/udp_analyzer/tcp_channel.py:648-683 | The pid of a row is that of a process that made a counted call on the flow since the entry was made, and 0 only if no process with a pid did |
| ChannelRuns.HookReading | bpf/udp_channel.bpf.c:111-175 | A hook run changes what a dump reads of a flow by exactly the bytes and calls of that run, and of no other flow; peeks and error-queue reads count nothing |
| ChannelRuns.EmittedNeverExceedsTraffic | src/udp_analyzer/tcp_channel.py:422-508 | Over every interleaving of hooks, evictions, reloads, restarts and dumps, a flow's emitted total never exceeds the traffic since a dump first read it and what dumps listed again; so never the traffic if no dump lists the flow twice |
| ChannelRuns.EmittedEqualsTraffic | src/udp_analyzer/tcp_channel.py:422-508 | While the entry survives and each dump lists it once, the total is exactly that traffic up to the last reading |
| ChannelRuns.ListedAgainIsReportedAgain | src/udp_analyzer/tcp_channel.py:425-437 | When a dump lists a surviving flow n times, the total exceeds the traffic by exactly n - 1 times what the entry holds |
| ChannelRuns.ExcessIsSwallowed | src/udp_analyzer/tcp_channel.py:443-469 | And what follows: after n listings and a next dump with j listings the excess is the greater of j - 1 times the later reading and n times the earlier one less the later one; after one listing it is gone once the entry has grown n-fold |
| ChannelRuns.AlwaysCovered | src/udp_analyzer/tcp_channel.py:454-469 | The invariant behind it, in every run: emitted total plus what is still unread never exceeds the traffic and what was listed again |
| ChannelLiveness.SurvivingInterval | bpf/tcp_channel.bpf.c:165-195 | Over an interval an entry survives, calls and bytes keep step in both directions |
| ChannelLiveness.RowIsLive | src/udp_analyzer/tcp_channel.py:160-166 | A row of a checkpoint whose flow kept its entry between its two readings reports packets exactly when it reports bytes, and never more packets than bytes |
| ChannelLiveness.EmittedRowsAreLive | src/udp_analyzer/tcp_channel.py:160-166 | The same of every row a run ever emits of a flow, if its entry stayed between the readings of each |
| ChannelLiveness.KeptThroughout | src/udp_analyzer/tcp_channel.py:160-166 | It suffices that nothing removes the entry and no dump lists it twice |
| ChannelLiveness.EvictionBreaksNextRowIff | src/udp_analyzer/tcp_channel.py:459-477 | For any bound m on the bytes of one call, any reachable baseline, any number of CPUs and both directions: some course of events makes the next row one of bytes without packets if and only if the baseline's bytes are fewer than m for each of its calls; one of packets without bytes if and only if one of its calls moved more than one byte; one that is not live if and only if it holds a call and m is at least 2 |
| ChannelLiveness.LongCallsBreak | src/udp_analyzer/tcp_channel.py:160-166 | The run that does it: an eviction and as few calls of m bytes as outdo the baseline's bytes |
| ChannelLiveness.OneCallMakesSuchABaseline | src/udp_analyzer/tcp_channel.py:443-457 | Such baselines are reachable from the first call on: which condition one call and one dump meet, by the size of the call |
| ChannelRuns.KeysPassValidation | src/udp_analyzer/tcp_channel.py:638-645 | Every key the hooks of a protocol write passes the parser's validation |
| Frames.VerdictIff | bpf/udp_ingress.bpf.c:70-176 | Read off the whole frame: which frames are accounted, which single reason drops each other one, and that no bounds check fails after a successful pull |
| Frames.FrameIsAccountedIff | bpf/udp_ingress.bpf.c:147-175 | A frame of a UDP packet is accounted if and only if it has 82 bytes and the pull is not refused: then under its own addresses, and the ports and the length that stand at the start of its data, be it a fragment or not; otherwise the pull is the drop reason |
| Frames.ShortDatagramsGoUncounted | bpf/udp_ingress.bpf.c:166-170 | A whole datagram without padding is accounted under its ports with its payload, and goes uncounted exactly when its payload and IP options together are shorter than 40 bytes |
| Frames.FragmentIsAccounted | bpf/udp_ingress.bpf.c:81-104 | A pulled fragment of a datagram is accounted, whatever its offset, under the ports and the length that stand at that offset of the datagram |
| Frames.AccountedAsItselfIff | bpf/udp_ingress.bpf.c:81-104 | A pulled frame is accounted under the ports and the length of the datagram it belongs to, whatever that says, if and only if its fragment offset is 0 |
| Frames.ALaterFragment | bpf/udp_ingress.bpf.c:81-104 | For instance, 200 bytes from the offset 185 on are accounted under ports made of four letters of the payload |
| Frames.ADatagramOf39Bytes | bpf/udp_ingress.bpf.c:166-170 | For instance, one of 39 bytes without options |
| Frames.PlacementDoesNotMatter | bpf/udp_ingress.bpf.c:154-165 | Where the driver put the bytes, in the linear part or in pages, changes no verdict, key or payload |
| IngressMap.LedgersHold | bpf/udp_ingress.bpf.c:132-145 | In every reachable state each CPU's drop counters match the verdicts, and each cell holds only packets of its own flow |
| IngressLedger.NothingLostNothingDoubled | bpf/udp_ingress.bpf.c:61-145 | In every interleaving, packets over all entries plus drops over all reasons are the completed runs |
| IngressLedger.CpuConserves | bpf/udp_ingress.bpf.c:61-145 | The same on each CPU, with the run in hand |
| IngressLedger.EntriesWithinCapacity | bpf/udp_ingress.bpf.c:30-35 | Entries never exceed the capacity |
| IngressLedger.NoneTurnedAway | bpf/udp_ingress.bpf.c:132-140 | While the flows that came fit in the map, no packet is turned away, however CPUs race to insert |
| IngressLedger.MapFullExactlyWhenFlowsDoNotFit | bpf/udp_ingress.bpf.c:134-139 | At rest, the map-full counters are zero if and only if the flows that came fit |
| IngressRows.ReadingIsCpuSum | src/udp_analyzer/ebpf.py:749-768 | What a dump reads of a flow is the parser's sum over the CPUs |
| IngressRows.BytesFollowPackets | bpf/udp_ingress.bpf.c:100-143 | Between any two moments bytes grow by at most 65527 per packet, plus what was half done |
| IngressRows.RowsObeyByteBoundIff | src/udp_analyzer/ebpf.py:608-625 | From any moment, on any number of CPUs: every row that can follow has a packet and at most 65527 bytes for each if and only if no CPU was between the two increments for the flow |
| IngressRows.EmittedRowsObeyByteBound | src/udp_analyzer/ebpf.py:603-625 | Every row a run emits for the flow obeys the bound unless a CPU was between the increments at the dump before, and exceeds it by no more than what was half done |
| IngressLedger.AdmittedFlowsAreExact | bpf/udp_ingress.bpf.c:132-145 | However full the map, a flow that has an entry, or has room for one, never had a packet turned away |
| IngressRows.RowWithoutPackets | bpf/udp_ingress.bpf.c:142-143 | Such a moment is reachable: one packet, read between its increments, gives a next row with its bytes and no packet |
| IngressRows.ReadingIsExact | bpf/udp_ingress.bpf.c:132-145 | However full the map, the reading of a flow with an entry is exactly what arrived for it, less what is in hand |
| IngressRows.RunReportsArrivals | src/udp_analyzer/ebpf.py:565-637 | From racing CPUs to a run of rows, however full the map: the run reports exactly the arrivals between first and last reading, less what is in hand |
| IngressProgram.IngressMaps.UdpIngress | bpf/udp_ingress.bpf.c:151-176 | The program as written, uninterrupted on one CPU, is the composition of the steps |
| IngressProgram.IngressMaps.CountPacket | bpf/udp_ingress.bpf.c:132-145 | Lookup, insert-if-absent, second lookup and the two increments as written |
| IngressProgram.IngressMaps.DropPacket | bpf/udp_ingress.bpf.c:61-68 | Exactly one drop counter goes up by one |
| IngressProgram.IngressMaps.AccountUdp4 | bpf/udp_ingress.bpf.c:70-130 | The header checks as written classify the frame |
| IngressProgram.RunEnds | bpf/udp_ingress.bpf.c:132-145 | Five steps end a run: counted once if the entry exists by then, dropped once otherwise |
| CookieMap.CandidateIsOdd | bpf/udp_receive.bpf.c:100-103 | A proposed cookie is odd, hence not zero |
| CookieBits.DrawReadsBack | bpf/udp_receive.bpf.c:100-103 | All bits of both random words are in the proposed cookie, but for the last: they read back from it and the time |
| CookieMap.CallEnds | bpf/udp_receive.bpf.c:87-107 | An uninterrupted call returns the stored cookie, or the proposed one if the map admits it, or 0 |
| CookieMap.StoredCookiesAreNonzero | bpf/udp_receive.bpf.c:99-104 | Zero is never stored |
| CookieMap.CallsAgree | bpf/udp_receive.bpf.c:87-107 | Through any interleaving that does not evict the key, all calls that return a cookie return the same one |
| CookieMap.EvictionDrawsAgain | bpf/udp_receive.bpf.c:52-56 | After an eviction the socket gets a new draw |
| CookieMap.KprobeCookies.KprobeSocketCookie | bpf/udp_receive.bpf.c:87-107 | The function as written refines the steps |
| DeliveryMap.EveryPacketHasOneOutcome | bpf/udp_receive.bpf.c:109-168 | In every interleaving each packet has exactly one outcome in order of arrival, and cells hold exactly the packets and bytes counted under their key |
| DeliveryMap.OneSocketOneCookie | bpf/udp_receive.bpf.c:177-183 | Without eviction a socket's packets are counted under one cookie, whichever CPUs they reach |
| DeliveryMap.RowsNameTheirSocket | bpf/udp_receive.bpf.c:149-166 | Through any evictions, unless two sockets drew the same cookie: an entry's inode, on any CPU, is that of the socket each of its packets was counted for |
| DeliveryMap.EntriesHaveOneSocket | bpf/udp_receive.bpf.c:149-161 | And all its packets, on any CPUs, are of one socket |
| DeliveryMap.CookiesWereDrawn | bpf/udp_receive.bpf.c:95-107 | The invariant behind both: every cookie stored, in hand or counted under was drawn for its very socket |
| DeliveryMap.DrawnAreStored | bpf/udp_receive.bpf.c:48-56 | Without evictions the cookies ever drawn are those stored now |
| DeliveryMap.AlwaysAccounted | bpf/udp_receive.bpf.c:163-166 | A cell's inode is that of a packet counted under its key on the same CPU, or about to be |
| DeliveryLabels.CellsShowTheFirst | bpf/udp_receive.bpf.c:149-166 | In every reachable state, a cell's inode and its interface are each the first, in order, that a packet counted there bore; while its CPU is busy with a packet, that packet may or may not count yet |
| DeliveryLabels.ReadingShowsALabel | bpf/udp_receive.bpf.c:163-166 | As soon as any CPU is done with one packet that bore an inode, what a dump reads shows one; the same for the interface |
| DeliveryLabels.ReadingShowsItsSocket | bpf/udp_receive.bpf.c:149-166 | It is then the inode of the packet's own socket, through any evictions, unless two sockets drew the same cookie |
| DeliveryProgram.RunEnds | bpf/udp_receive.bpf.c:87-168 | On any CPU among any others, in any state: what becomes of a packet that nothing interrupts, exactly when it is skipped, goes without a cookie, finds no room or is counted, and what changes in the maps |
| DeliveryMap.ParseDelivered | src/udp_analyzer/ebpf.py:810-829 | The parser's loop: sums, and an inode exactly if some CPU has one, namely one of theirs |
| DeliveryMap.ReadingNamesItsSocket | src/udp_analyzer/ebpf.py:810-829 | What a dump reads is every packet counted under the key on any CPU with its payload bytes, less those still to be added; and through any evictions its inode is that of each packet's socket, unless two sockets drew the same cookie |
| DeliveryMap.PacketsAreCountedUnderTheirFlow | bpf/udp_receive.bpf.c:122-147 | A packet is skipped exactly if its headers cannot be used, and counted only under its own addresses and ports and a nonzero cookie |
| DeliveryRows.RunReportsDeliveries | src/udp_analyzer/ebpf.py:639-702 | From racing CPUs to a run of delivered rows: the run reports exactly the packets and bytes counted between first and last reading, less what was still to be added |
| DeliveryArrivals.AdmittedKeysAreNeverRefused | bpf/udp_receive.bpf.c:149-161 | However full the map and however the CPUs race, a key that has an entry, or has room for one, was never refused |
| DeliveryArrivals.BalanceStays | bpf/udp_receive.bpf.c:109-168 | While a socket keeps its cookie, a CPU counts of its flow exactly what comes to it, but for what is in hand |
| DeliveryArrivals.RunReportsArrivals | src/udp_analyzer/ebpf.py:639-702 | For such a socket the run reports exactly the packets and payload bytes that came for the flow between first and last reading, less what was in hand, however full the map |
| DeliveryPipeline.SamplesAddUpToArrivalsIff | src/udp_analyzer/ebpf.py:669-702 | And its delivered samples add up, by their printed labels, to at least that, and to exactly that if and only if each row with something to write was written once |
| Bytes.FromLeOfLe | src/udp_analyzer/ebpf.py:732-745 | Little-endian reading inverts little-endian storing |
| Bytes.LeOfFromLe | src/udp_analyzer/ebpf.py:732-745 | And the other way round |
| StructCodec.UnpackOfPack | src/udp_analyzer/ebpf.py:732-745 | For any field list the unpacker inverts the packer |
| StructCodec.PackOfUnpack | src/udp_analyzer/ebpf.py:732-745 | Packing what was unpacked restores the bytes off the pads |
| StructCodec.ParseEqualIffAgree | bpf/udp_ingress.bpf.c:106-121 | Two keys parse equal if and only if they agree off the pad bytes |
| StructCodec.ZeroPaddedKeyIsUnique | bpf/udp_ingress.bpf.c:119-123 | With zeroed pads one flow has one raw key |
| StructCodec.PadSplitsAFlow | bpf/udp_ingress.bpf.c:106-117 | Without, every key has a different raw key of the same identity |
| CLayout.ReadsStruct | bpf/udp_ingress.bpf.c:15-23 | Reading a naturally aligned struct through its format gives the members' values, whatever is in the holes |
| CLayout.FormatWidth | src/udp_analyzer/ebpf.py:732-739 | The format is as wide as the struct |
| MapLayouts.UdpKeyLayout | src/udp_analyzer/ebpf.py:732-739 | The ingress key format puts every field where C alignment puts it |
| MapLayouts.UdpCountersLayout | src/udp_analyzer/ebpf.py:749-768 | The same for the ingress counters |
| MapLayouts.DeliveredKeyLayout | src/udp_analyzer/ebpf.py:791-807 | The same for the delivered key, its explicit pad skipped |
| MapLayouts.DeliveredValueLayout | src/udp_analyzer/ebpf.py:839-852 | The same for the delivered value |
| MapLayouts.ChannelKeyLayout | src/udp_analyzer/tcp_channel.py:618-634 | The same for the channel key |
| MapLayouts.ChannelValueLayout | src/udp_analyzer/tcp_channel.py:699-728 | The same for the channel value |
| KeyParsing.UdpKeyFromMemory | src/udp_analyzer/ebpf.py:719-746 | The kernel's memory of an ingress key parses to that key, whatever is in its hole |
| KeyParsing.ChannelKeyFromMemory | src/udp_analyzer/tcp_channel.py:603-645 | The kernel's memory of a channel key parses if and only if the hooks could have written it, and then to that key |
| ValueParsing.CountersFromMemory | src/udp_analyzer/ebpf.py:749-768 | The kernel's memory of one CPU's ingress counters parses to them |
| ValueParsing.DeliveredKeyFromMemory | src/udp_analyzer/ebpf.py:778-807 | That of a delivered key to the key, whatever its pad holds |
| ValueParsing.DeliveredCellFromMemory | src/udp_analyzer/ebpf.py:810-852 | That of one CPU's delivered value to the value |
| ValueParsing.FlowValueFromMemory | src/udp_analyzer/tcp_channel.py:699-728 | That of one CPU's channel value to the value |
| KeyParsing.ShortKeysAreRefused | src/udp_analyzer/ebpf.py:732-738 | Too few bytes, or what is no byte, is refused |
| KeyParsing.OneFlowOneEntry | bpf/udp_ingress.bpf.c:119-123 | Two zero-padded ingress keys are one map entry exactly if they are one flow |
| KeyParsing.Validated | src/udp_analyzer/tcp_channel.py:638-645 | A key is accepted exactly if it is valid, unchanged |
| Addresses.DottedIsInjective | src/udp_analyzer/ebpf.py:861-862 | Printing a dotted quad is injective |
| Addresses.BpfIntPrintsInjectively | src/udp_analyzer/ebpf.py:861-862 | Two 32-bit addresses print alike exactly if they are equal |
| Addresses.LoopbackText | src/udp_analyzer/ebpf.py:861-862 | For instance, 0x0100007F prints as 127.0.0.1 |
| Addresses.HexIsBigEndian | src/udp_analyzer/processes.py:219-225 | The `/proc` hex digits, reversed by bytes, are the integer's little-endian memory |
| Addresses.AddressesAgree | src/udp_analyzer/processes.py:219-225 | For every 32-bit value, `/proc` and BPF print the same dotted quad, and the port reads back |
| Addresses.Ipv6TextKeepsDigits | src/udp_analyzer/processes.py:226-229 | The text of an IPv6 row is its digits in groups of eight |
| Addresses.LegacyMatchIsNumeric | src/udp_analyzer/processes.py:164-171 | On IPv4 rows the heuristic selects exactly equal port and (address zero or numerically equal address) |
| Addresses.LegacyMatchNeverIpv6 | src/udp_analyzer/processes.py:226-229 | It never selects an IPv6 row, dual-stack sockets included |
| Loaders.LoadedState.LoadTcpChannel | bpf/tcp_channel_loader.c:57-113 | Whatever fails first is reported and leaves nothing live; success holds one object and all its links |
| Loaders.LoadErrorIff | bpf/tcp_channel_loader.c:57-113 | It reports success if and only if nothing goes wrong, and else the error of the first step that does |
| Loaders.LoadedState.AppendLink | bpf/tcp_channel_loader.c:43-55 | A failed realloc keeps the old block and links |
| Loaders.LoadedState.DestroyState | bpf/tcp_channel_loader.c:29-41 | Everything held is released, once, and the state is empty |
| Loaders.ChannelLoaderMain | bpf/tcp_channel_loader.c:115-141 | For any number of programs and any failure, all acquired is released exactly once |
| Loaders.ReceiveState.LoadBackend | bpf/udp_receive_loader.c:42-113 | One backend attempt: the first failure is reported and leaves nothing live; on success exactly the backend's program is enabled |
| Loaders.BackendErrorIff | bpf/udp_receive_loader.c:42-113 | An attempt succeeds if and only if nothing goes wrong and the object has the program of that backend, by its name; else it reports the first thing that goes wrong |
| Loaders.ChosenIff | bpf/udp_receive_loader.c:140-153 | Fentry comes first; kprobe is reported only if it is asked for alone, or fentry fails and was not |
| Loaders.ReceiveState.DestroyState | bpf/udp_receive_loader.c:33-40 | Everything held is released and the state is empty |
| Loaders.ReceiveLoaderMain | bpf/udp_receive_loader.c:121-168 | Automatic mode tries kprobe after fentry from an empty state; in the end nothing acquired is live |
| MapLookup.Newest | src/udp_analyzer/ebpf.py:341-351 | The newest loaded candidate, if there is one |
| MapLookup.NewestIsTheLast | src/udp_analyzer/ebpf.py:351-351 | And should two candidates have the highest id, the one listed last |
| MapLookup.RefreshMapId | src/udp_analyzer/ebpf.py:339-376 | The first map of the newest program that bears the wanted, truncated name |
| MapLookup.ReadsTheMapDeclaredIff | src/udp_analyzer/ebpf.py:353-371 | The declared map is read if and only if no earlier map of the program has the same name in the kernel, which keeps 15 characters |
| MapLookup.CountersAreNotDrops | src/udp_analyzer/ebpf.py:353-368 | The counters map and the drop map are told apart in either order |
| MapLookup.RefreshIngressMapId | src/udp_analyzer/ebpf.py:339-376 | For the newest `udp_ingress` program with two maps listed as `udp_ingress_cou` and `udp_ingress_dro`, in either order, the id of the former is returned |
| MapLookup.CutsLikeTheKernel | src/udp_analyzer/ebpf.py:363-365 | The collector cuts every name exactly as the kernel does |
| Attribution.Attributor.Create | src/udp_analyzer/ebpf.py:405-471 | Construction fails exactly for the listed reasons; a settled mode is never auto, has a reader exactly in cookie mode; a failure leaves no loader and no filter it added |
| Attribution.Attributor.ConfigureDelivery | src/udp_analyzer/ebpf.py:473-527 | The mode machine: fallback only from auto, exact refusals, exact delivered map |
| Attribution.Attributor.FallBackToLegacy | src/udp_analyzer/ebpf.py:529-537 | The fallback settles on legacy without a backend |
| Attribution.Attributor.Close | src/udp_analyzer/ebpf.py:704-708 | Closing stops the loader and deletes the filter, even one this collector did not add |
| Attribution.ReceiveAttachment.Attach | src/udp_analyzer/ebpf.py:182-231 | A receive loader that was started and not accepted is stopped |
| Attribution.TcAttachment.Attach | src/udp_analyzer/ebpf.py:263-301 | The filter is there exactly on success; before that the old one at the preference is deleted |
| Attribution.ChannelAttachment.Attach | src/udp_analyzer/tcp_channel.py:257-308 | A failed start leaves a loader running exactly when it had reported an unacceptable line |
| Attribution.Life | src/udp_analyzer/ebpf.py:405-471 | A whole life leaves the receive loaders as it found them |
| Attribution.AutoStartsIff | src/udp_analyzer/ebpf.py:486-521 | Automatic mode starts whatever the loader does, except for an unknown hook or a map id that is not positive |
| Attribution.StartsIff | src/udp_analyzer/ebpf.py:405-527 | For every mode, by its name: the exact condition under which the collector starts |
| Attribution.ReadsDeliveredIff | src/udp_analyzer/ebpf.py:473-527 | And under which it reads a delivered map, and which |
| Attribution.FirstReason | src/udp_analyzer/ebpf.py:422-471 | A refusal gives the first reason that applies |
| Attribution.CookieNeverFallsBack | src/udp_analyzer/ebpf.py:490-527 | Cookie mode starts only with a delivered map, the one automatic mode would read |
| CheckpointClock.Clock.Tick | src/udp_analyzer/ebpf.py:539-556 | Bucket start and measured interval of a checkpoint |
| CheckpointClock.Interval | src/udp_analyzer/ebpf.py:552-556 | Whatever the clock does, the interval is positive |
| CheckpointClock.BucketStartIsTheOnlyOne | src/udp_analyzer/models.py:88-90 | The bucket start is the only aligned time at most now and less than one bucket before |
| CheckpointClock.IntervalIsHonestIffApart | src/udp_analyzer/ebpf.py:552-556 | An interval is at most the time passed, and short by less than 1 ms, if and only if at least 1 ms passed |
| CheckpointClock.IntervalsCoverTheRun | src/udp_analyzer/ebpf.py:542-556 | Over n checkpoints at least 1 ms apart the intervals fall short of the time passed by less than n ms in all |
| CheckpointClock.SetBacksAreReported | src/udp_analyzer/ebpf.py:552-556 | For any clock, the intervals add up to at least the time passed plus all that the clock was set back, less under 1 ms each |
| CheckpointClock.OverstatedIff | src/udp_analyzer/ebpf.py:552-556 | Some checkpoint is labelled with more time than passed if and only if two of them were not 1 ms apart |
| IngressCollector.EbpfIngressCollector.ReadCheckpoint | src/udp_analyzer/ebpf.py:539-563 | One checkpoint writes the labelled, filtered rows of the ingress map, then in cookie mode those of the delivered map |
| IngressCollector.EbpfIngressCollector.ReadIngress | src/udp_analyzer/ebpf.py:612-637 | Rows, enrichment in legacy mode, filter |
| IngressCollector.EbpfIngressCollector.ReadDelivered | src/udp_analyzer/ebpf.py:669-702 | Rows, exact enrichment, filter |
| IngressCollector.Watch | src/udp_analyzer/cli.py:240-250 | The main loop writes exactly the samples of the run |
| IngressReports.SamplesAreExactly | src/udp_analyzer/ebpf.py:539-702 | For every configuration, run, checkpoint and sample: it is written if and only if it passes the filter, tells field by field of a row of that checkpoint and, if it names a process, of one that holds the row's socket (by address and port in legacy mode), starts at the bucket of that checkpoint, and prints the milliseconds measured since the one before |
| IngressReports.RunIsItsCheckpoints | src/udp_analyzer/cli.py:240-250 | A run writes what its checkpoints write, in that order |
| IngressReports.PrintedIntervalsCoverTheRun | src/udp_analyzer/ebpf.py:541-556 | One sample of each checkpoint, whichever: the intervals they print add up to the time that passed, short by less than a millisecond each |
| IngressSamples.Enrich | src/udp_analyzer/processes.py:121-141 | The sample itself, then one delivered copy for each matching socket |
| IngressSamples.CheckpointByLayer | src/udp_analyzer/ebpf.py:558-563 | The ingress rows of a checkpoint ignore the mode, and its delivered rows come from one source |
| IngressSamples.IngressRowsIgnoreAttribution | src/udp_analyzer/ebpf.py:627-635 | Over a run the ingress rows are those of a collector that attributes nothing |
| IngressAccounts.LabelsDetermineFlow | src/udp_analyzer/ebpf.py:43-52 | Printed labels tell flows apart, but for the address family |
| IngressAccounts.FrameAddressesPrint | src/udp_analyzer/ebpf.py:861-862 | The addresses a sample prints are the four bytes of the frame's IPv4 header, in their order |
| IngressAccounts.LabelsAccountForTheRun | src/udp_analyzer/ebpf.py:608-626 | Adding up a run's unfiltered samples by their labels gives, for each flow, the sum of its positive changes |
| IngressPipeline.SamplesAddUpToArrivals | src/udp_analyzer/ebpf.py:565-637 | From racing CPUs to printed samples, in any mode: the ingress samples with a flow's labels add up to exactly what came for it between its first and its last reading, less what was in hand |
| DeliveredAccounts.LabelsDetermineSocketFlow | src/udp_analyzer/ebpf.py:85-94 | The same for the flows to sockets |
| DeliveredAccounts.DeliveredOnceIffUnshared | src/udp_analyzer/processes.py:143-162 | In cookie mode a flow's delivered samples add up by their labels to what its rows emitted if and only if no row with something to write has a socket held by several processes; otherwise to more |
| DeliveredAccounts.LabelsAccountForDeliveryIff | src/udp_analyzer/ebpf.py:669-702 | Over a run the delivered samples add up, by their labels, to at least the flow's positive changes, and to exactly them if and only if none of its own rows with something to write had a shared socket |
| IngressSamples.FindMatchesIff | src/udp_analyzer/processes.py:164-171 | The heuristic selects exactly the matching sockets of the inventory |
| IngressSamples.HoldersIff | src/udp_analyzer/processes.py:173-180 | Exact attribution selects exactly the processes that hold the inode; none for inode 0 |
| IngressSamples.KeptIff | src/udp_analyzer/models.py:75-85 | The filter keeps exactly the samples that pass it |
| ChannelCollectors.ChannelCollector.ReadCheckpoint | src/udp_analyzer/tcp_channel.py:403-420 | One checkpoint of a channel collector; it does not depend on the unit cache it found |
| ChannelCollectors.ChannelCollector.Label | src/udp_analyzer/udp_channel.py:480-516 | The labelling loop with its cache writes exactly the labelled rows |
| ChannelCollectors.ChannelCollector.UnitForPid | src/udp_analyzer/tcp_channel.py:510-518 | One `/proc` lookup per pid and checkpoint; none for pid 0 |
| ChannelCollectors.Watch | src/udp_analyzer/cli.py:283-291 | The main loop writes exactly the samples of the run and carries the sum of the last dump |
| ChannelReports.SamplesAreExactly | src/udp_analyzer/tcp_channel.py:403-508 | The same for the channel collectors: the endpoint, the labels of the row's first entry, the unit of its process, the channel, url and host of the unit, and the measured interval |
| ChannelReports.RunIsItsCheckpoints | src/udp_analyzer/cli.py:283-291 | A run writes what its checkpoints write, in that order |
| ChannelReports.PrintedIntervalsCoverTheRun | src/udp_analyzer/tcp_channel.py:403-420 | The printed intervals add up to the time that passed, short by less than a millisecond each |
| ChannelCollectors.UnitsAreFirstAnswers | src/udp_analyzer/tcp_channel.py:406-410 | A sample's unit is what `/proc` said at its pid's first row of this checkpoint |
| ChannelCollectors.OneUnitPerProcess | src/udp_analyzer/tcp_channel.py:406-410 | Within a checkpoint all samples of a process agree on its unit, even while pids are reused |
| ChannelCollectors.SamplesMatch | src/udp_analyzer/udp_channel.py:480-514 | Channel, url and host are those of the last target of the very unit that is printed, and empty exactly when no target has it; the status is the verdict on the very endpoint that is printed |
| ChannelCollectors.MatchedIff | src/udp_analyzer/channels.py:45-61 | The target is the last one of the unit, whatever the verdict, and there is none exactly when no target has the unit; a flow matches exactly when that target expects its port and address |
| ChannelCollectors.PrintAlikeIff | src/udp_analyzer/udp_channel.py:484-495 | TCP rows of two flows never print alike; UDP rows do exactly when one flow has no peer where the other is its own peer |
| ChannelAccounts.LabelsAccountForTheRun | src/udp_analyzer/tcp_channel.py:479-507 | A run's unfiltered samples add up, by their printed labels, to the flow's positive changes, for a flow no other prints like |
| ChannelAccounts.TcpFlowsAreApart | src/udp_analyzer/tcp_channel.py:481-491 | For TCP that is every flow the hooks can write |
| ChannelPipeline.EmittedRowsAreRunRows | src/udp_analyzer/cli.py:283-291 | In every run the rows and the baseline of the collector running now are those of a run over the dumps it completed |
| ChannelPipeline.SamplesNeverExceedTraffic | src/udp_analyzer/tcp_channel.py:422-508 | In every run the samples with the labels of a flow printed apart never add up to more than the traffic since a dump first read it and what dumps listed again; so never the traffic if no dump lists it twice |
| ChannelPipeline.SamplesEqualTraffic | src/udp_analyzer/tcp_channel.py:422-508 | For a flow that survives, listed once by each dump, they add up to exactly that traffic up to the last reading |
| ChannelPipeline.TcpSamplesNeverExceedTraffic | src/udp_analyzer/tcp_channel.py:422-508 | For TCP the bound holds of every flow |
| UnitFiles.JoinSystemdContinuations | src/udp_analyzer/channels.py:235-247 | The loop joins the physical lines as specified |
| UnitFiles.NoLineContinues | src/udp_analyzer/channels.py:235-247 | For any text no logical line ends in a backslash, and splitting again gives the logical lines |
| UnitFiles.JoiningInvertsRendering | src/udp_analyzer/channels.py:235-247 | A rendered file of newline-terminated lines reads back as its logical lines, one each |
| UnitFiles.JoiningInvertsUnterminatedIff | src/udp_analyzer/channels.py:235-247 | Without the last newline, exactly when the last logical line is not an empty one |
| UnitFiles.SplitSeparated | src/udp_analyzer/channels.py:238-247 | Splitting joined lines gives them back, except an empty last one |
| UnitFiles.TrailingBlanksDoNotMatter | src/udp_analyzer/channels.py:238-241 | Blanks at the end of a physical line make no difference, not even after the backslash |
| UnitFiles.BreaksIff | src/udp_analyzer/channels.py:238-238 | A text breaks at each of ten characters, and at nothing else |
| UnitFiles.BlanksIff | src/udp_analyzer/channels.py:239-239 | A line loses at its end those and nineteen more, and nothing else |

## Left out

- Subprocesses, `sudo`, `tc`, `bpftool`, `select`, signals, `/proc` scanning and the socket cache: they appear only as inputs, such as a sequence of dumps, clock values, socket inventories and the outcome of each step.
- Exceptions out of a dump: the command line ends the process on them, so no later checkpoint sees a half-done one.
- Keys and values that bpftool prints as JSON objects, and byte lists given as hexadecimal strings: they are read by name, and only the raw byte form is modelled.
- Writers, JSON and table output, ISO timestamps, argument parsing, the dry-run collectors.
- The verifier, CO-RE reads and the LRU policy: whether the kernel refuses to pull a frame that is long enough, and whether headers can be read, are inputs; eviction is a step that may happen at any moment.
- Reuse of an LRU element while a hook still holds its pointer, and torn reads of one value.
- `bpf/udp_channel_loader.c`, which is the TCP channel loader with another map name.
- The fentry receive hook, whose cookie is the kernel's own: it takes the steps of `DeliveryMap` from the delivered map's lookup on.
- URL patterns, shell splitting, name resolution, unit file search and BTF text: library behaviour.
- IngressAccounts.LabelsAccountForTheRun: is about flows of one address family, because samples do not carry the family; the kernel side only writes IPv4.
- ChannelRuns.EmittedEqualsTraffic: is about flows that survive and are listed once in each dump; what further listings add is `ChannelRuns.ListedAgainIsReportedAgain`.
