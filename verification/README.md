# Formal model of the network-driver examples

A Dafny model of five programs and proofs about them:

* **snull** (`snull/snull.c`), a driver for two Ethernet devices that loop
  frames into each other through linked packet pools, with regular or NAPI
  receive interrupts, a simulated transmitter lockup and a watchdog;
* the **checksum-carrying rewrites** of snull and of the dummy Ethernet driver;
* the **dummy driver and its simulated hardware**
  (`linux-netdevice-driver-test/`), a queue drained by a thread into an ARP and
  ICMP reflector, with per-CPU statistics;
* the **nested netlink walk** of `netlink/route_show.c`;
* the **client table** of `select/chat-server/server.c`.

`dafny verify dfyconfig.toml` checks the whole project.

## How it is organised

| file | content |
|---|---|
| `Bytes`, `Checksum`, `Ethernet` | octets, 16-bit fields, one's-complement sums (section 1 of RFC 1071), header layout |
| `SnullFrame` | padding, address rewrite, checksum rebuild, and their laws |
| `SnullModel` | the two devices as a state machine; a step is a whole transmit, poll or timeout |
| `SnullConservation`, `SnullFlow`, `SnullOrder`, `SnullTraffic`, `SnullLockup` | theorems over every run of that machine |
| `SnullDriver` | the driver with linked lists and fields updated in place; each operation is proved equal to the corresponding step of `SnullModel`, and conservation is carried over to the packet objects |
| `Reflector` | ARP and ICMP replies, in place, and their checksum laws |
| `DummyHw`, `DummyDriver` | submit, dequeue, dispatch, register, deregister and exit in any interleaving; the same entry points as class methods |
| `DummyRegistration`, `DummyStats`, `DummyNeighbour` | theorems over every run of that machine |
| `Netlink`, `RouteShow` | walks over arbitrary octets, an encoder, round trips, and the extraction loops |
| `ChatTable` | the slot table, its interleavings, and the table as an array |
| `Counting`, `Options` | occurrences, octet counts, optional values |

A definition whose body is guarded by `Open` or `Unfold` (in `Bytes`) is closed:
a proof that needs the body says so by mentioning the guard. Every lemma states its
inductions itself; automatic induction is switched off throughout.

What frames and messages mean is also written out in octets and in the numbers
of the protocols (`SnullFrame.WireInOctets`, `Reflector.AnsweredIff` and its
neighbours, the second half of `RouteShow`), apart from the constants the models
of the programs use.

In `SnullModel`, `Tx` yields `None` where `snull_get_tx_buffer` would follow a
NULL pointer. A run is *legal* when the stack transmits only on a running queue
and polls only when a poll is scheduled; allocation results are inputs of the
steps, and the watchdog may fire at any time.

## What the proofs found

* The watchdog wakes the queue of a device whose pool is empty. The next
  transmission then follows a NULL pointer. Over every run, no state is exposed
  to this if and only if the watchdog never fires on a device without a free
  packet (`SnullFlow.WatchdogExactlyUnsafe`, `SnullFlow.SafeIffCareful`);
  `SnullFlow.WatchdogCrash` is a three-step run from boot in NAPI mode, and in
  regular mode nothing can go wrong (`SnullFlow.RegularNeverCrashes`).
* Every watchdog firing with no lost interrupt to make up for counts one packet
  too many, and frees the last skb again: `SnullTraffic.WatchdogOvercounts`.
* With lockup simulation and traffic in both directions, an owed completion is
  collected by the twin's frame and the watchdog frees the same skb again:
  `SnullLockup.DoubleFreeRun` from boot. The books stay right if and only if no
  frame of the twin arrives between a lockup and the firing that ends it
  (`SnullLockup.LockupBooks`), and `tx_errors == tx_packets / lockup` exactly
  when none has arrived since the queue was stopped (`SnullLockup.LockupRate`).
* With lockup simulation in NAPI mode, a poll of the twin wakes the queue while
  a completion is owed. The next transmission overwrites the remembered skb,
  which is then never freed: `SnullLockup.OverwriteRun`, `SnullLockup.SkbLeaks`.
* NAPI delivers a burst in reverse (`SnullOrder.NapiReverses`), and every run
  as a stack does (`SnullOrder.NapiIsStack`), as the comment at
  `snull/snull.c:175` suspects; regular mode is FIFO in spite of that comment
  (`SnullOrder.RegularIsFifo`).
* A header checksum spelled 0xFFFF verifies, but does not survive a round trip:
  `SnullFrame.RoundTrip`, `SnullFrame.RoundTripCounterexample`.
* The reply to an echo request that is all zero apart from type and checksum
  carries 0xFFFF where the incremental update of RFC 1624 gives 0:
  `Reflector.IcmpChecksumLaw`.
* The chat server hands a new client's thread the slot `client_count - 1`, read
  without the mutex. In every reachable state that is the client's own slot if
  and only if the client is in the table with as many clients above its slot as
  holes below it, and it is a slot at all if and only if the table is not empty
  (`ChatTable.HandedSlot`). When nobody leaves between the accept and the read,
  this says that the occupied slots formed a prefix with room behind it
  (`ChatTable.HandedAtOnce`). `ChatTable.LeaverShiftsIndex` and
  `ChatTable.LeaverEmptiesTable` are runs in which a client does leave; the
  second hands out index -1.

## Model

| member | source | states |
|---|---|---|
| `SnullConservation.BufferConservation` | snull/snull.c:104-192 | In every reachable state of both modes, with any lockup setting, allocation failures and watchdog firings, the pool of a device followed by its twin's receive queue lists each packet allocated for the device exactly once and nothing else; the two lengths sum to the number allocated |
| `SnullConservation.FrameConservation` | snull/snull.c:267-336 | In every reachable state, the frames a device sent are, as a multiset, those its twin received, dropped or has queued, in frames and in octets, and the receive counters are the sizes of what was received and dropped |
| `SnullConservation.TeardownFreesAll` | snull/snull.c:123-133 | In every reachable state, the pool that teardown frees is every packet of the device, each once, if and only if none is in flight |
| `SnullConservation.StepKeepsInv` | snull/snull.c:434-562 | Every transmit, poll and timeout step preserves ownership, buffer, frame and volume conservation on both links |
| `SnullConservation.RunKeepsInv` | snull/snull.c:300-562 | The same over runs from any state that satisfies the invariant |
| `SnullFlow.NoStrandedPacket` | snull/snull.c:300-427 | In every reachable state receive interrupts are off exactly while a poll is scheduled, and while they are on the receive queue is empty; in regular mode they are always on |
| `SnullFlow.PollLoopStops` | snull/snull.c:308-335 | The poll loop delivers at most the budget, stops short of it only on an empty queue, and leaves the twin's queue and all interrupt state alone |
| `SnullFlow.FlowControl` | snull/snull.c:138-167 | Without lockup and watchdog, no legal run ever takes from an empty pool, and a queue is stopped if and only if the pool is empty, in both modes |
| `SnullFlow.WatchdogExactlyUnsafe` | snull/snull.c:138-153 | From any state in which empty pools have stopped their queues, in both modes and with any lockup setting: every transmission the stack may start in any state of the run finds a packet if and only if the watchdog never fired on an empty pool; and then the run does not crash |
| `SnullFlow.SafeIffCareful` | snull/snull.c:547-562 | The same from boot |
| `SnullFlow.WatchdogCrash` | snull/snull.c:547-562 | A legal run from boot in NAPI mode that ends in the NULL dereference, for every frame |
| `SnullFlow.RegularNeverCrashes` | snull/snull.c:342-385 | In regular mode every legal run keeps going, and the whole pool is back after every step |
| `SnullFlow.LockedUntilWatchdog` | snull/snull.c:165-166 | A queue stopped by a lockup while packets are free stays stopped until its watchdog fires, whatever is released meanwhile, in both modes |
| `SnullFlow.DrainBound` | snull/snull.c:300-336 | With no arrivals, n queued packets are drained and interrupts re-enabled after at most n / budget + 1 polls, exactly that many when no allocation fails |
| `SnullOrder.RegularIsFifo` | snull/snull.c:169-192 | In regular mode, for every run, what a device hands up is the FIFO sequence of padded and rewritten frames its twin sent minus allocation failures, the dropped ones are the rest in order, and nothing is queued between steps |
| `SnullOrder.RegularDeliver` | snull/snull.c:490-499 | A regular-mode delivery is synchronous: the sender's buffer is back and the twin has received exactly this frame |
| `SnullOrder.BurstStacks` | snull/snull.c:169-178 | In NAPI mode a burst of any length piles up in front of the queue, newest first |
| `SnullOrder.BurstInterruptsOnce` | snull/snull.c:496-499 | In NAPI mode a burst of any length interrupts the twin once if its receive interrupts are on and not at all if they are off, and does nothing else to it beyond its receive queue |
| `SnullOrder.PollTakesPrefix` | snull/snull.c:308-329 | With any budget, a poll takes a prefix of the queue in queue order, hands up what could be allocated, drops the rest of the prefix, and leaves what follows |
| `SnullOrder.PollReturns` | snull/snull.c:325-335 | A poll returns the number of frames it handed up, at most the budget; short of it the queue is empty, interrupts are on and no poll is scheduled, at it nothing of that changes |
| `SnullOrder.PollTakesQueue` | snull/snull.c:308-329 | A poll whose budget covers the queue takes all of it |
| `SnullOrder.NapiIsStack` | snull/snull.c:169-336 | Over every NAPI run, from any state, the frames waiting, handed up and dropped are those of a stack that transmissions push and polls pop |
| `SnullOrder.NapiReverses` | snull/snull.c:169-336 | A burst onto an empty queue that fits the budget reaches the stack in reverse, minus allocation failures |
| `SnullTraffic.TrafficLedger` | snull/snull.c:364-379 | For every run, in packets (tx_packets) and in octets (tx_bytes): transmissions completed, owed and lost to overwriting equal what the twin received, dropped and has queued, plus what the watchdog completed without cause |
| `SnullTraffic.TrafficConservation` | snull/snull.c:411-422 | Without lockup and watchdog, after every run the skbs freed are exactly those submitted, in order, and the transmit counters equal what the twin received, dropped and has queued, in packets and octets |
| `SnullTraffic.WatchdogOvercounts` | snull/snull.c:556-560 | Without lockup, tx_packets exceeds what arrived by the number of watchdog firings, so the law holds if and only if there was none; the skbs freed are those submitted if and only if the watchdog has not fired since the first transmission |
| `SnullTraffic.ErrorsAreFirings` | snull/snull.c:559 | Over every run, in both modes, tx_errors counts the watchdog firings of the device and nothing else |
| `SnullTraffic.SettledIffClean` | snull/snull.c:374-379 | From settled books, a step leaves every skb freed once and every counter exact if and only if it neither fakes a completion that is not owed nor overwrites one that is |
| `SnullTraffic.SettledIffCleanRun` | snull/snull.c:501-541 | Over runs: the books are settled in every state if and only if every step is clean |
| `SnullTraffic.OverwrittenIsLost` | snull/snull.c:534-535 | An skb the device no longer remembers is never freed again in any run that does not submit it again |
| `SnullLockup.LockupBooks` | snull/snull.c:501-512 | In regular mode with lockup, a watchdog that fires only on stopped queues and any traffic in both directions: no crash, and in every state each skb is freed once and each transmit counter right if and only if no frame of the twin arrives between a lockup and the firing that ends it |
| `SnullLockup.LockupRate` | snull/snull.c:505-507 | In the same runs, tx_errors equals tx_packets / lockup if and only if no frame of the twin has arrived since the queue was stopped (for lockup 1: has ever arrived on the stopped queue) |
| `SnullLockup.LockupArithmetic` | snull/snull.c:501-512 | With one-directional traffic: no crash, every skb completed exactly once, the queue is stopped exactly while a completion is owed, and tx_errors equals tx_packets / lockup |
| `SnullLockup.RegularTxExact` | snull/snull.c:518-541 | A whole regular-mode transmission on both devices: the twin receives, the sender completes or is locked up |
| `SnullLockup.CrossTrafficFreesTwice` | snull/snull.c:374-379 | In every state with a completion owed, a frame from the twin collects it, the queue stays stopped, and the watchdog then frees the same skb a second time |
| `SnullLockup.DoubleFreeRun` | snull/snull.c:374-379 | A legal run from boot, its watchdog firing on a stopped queue, that frees the only skb submitted twice |
| `SnullLockup.OverwriteRun` | snull/snull.c:165-166 | A legal NAPI run from boot in which a poll wakes the queue while a completion is owed, and the next transmission overwrites the skb waiting for it |
| `SnullLockup.SkbLeaks` | snull/snull.c:534-535 | However that run goes on, the overwritten skb is never freed |
| `SnullDriver.PacketList.Push` | snull/snull.c:161-163 | Head insertion into a linked list: the node sequence grows at the front and stays well linked |
| `SnullDriver.PacketList.Pop` | snull/snull.c:186-190 | Head removal returns the first node and leaves the rest, with the popped packet on no list |
| `SnullDriver.PacketList.Acyclic` | snull/snull.c:65-70 | A valid list holds no packet twice |
| `SnullDriver.ListsDisjoint` | snull/snull.c:80-92 | The two pools and two receive queues share no packet |
| `SnullDriver.OnExactlyOneList` | snull/snull.c:104-192 | On devices reached by any run from boot, each packet object allocated is on exactly one of the four linked lists, exactly once, and nothing else is |
| `SnullDriver.TeardownIsComplete` | snull/snull.c:123-133 | There, the pool that teardown walks holds every packet object of the device if and only if none is in flight |
| `SnullDriver.Device.SetupPool` | snull/snull.c:104-121 | Allocation stops at the first failure; the pool then lists the packets allocated, newest first, each with a buffer of its own |
| `SnullDriver.Device.TeardownPool` | snull/snull.c:123-133 | The loop frees exactly the nodes of the pool, head first, and leaves it empty |
| `SnullDriver.Device.GetTxBuffer` | snull/snull.c:138-153 | Unlinks the head of the pool, and stops the queue if that was the last |
| `SnullDriver.Device.Accept` | snull/snull.c:156-167 | Links a packet back at the head, and wakes a stopped queue if the pool was empty |
| `SnullDriver.Device.EnqueueBuf` | snull/snull.c:169-178 | Links the packet and its octets at the head of the receive queue |
| `SnullDriver.Device.DequeueBuf` | snull/snull.c:180-192 | Unlinks the head of the receive queue, or reports that it is empty |
| `SnullDriver.Device.Rx` | snull/snull.c:267-294 | Counts and hands up the octets of a packet, or counts a drop |
| `SnullDriver.Device.NapiIrq` | snull/snull.c:390-427 | The NAPI handler in place equals the model's |
| `SnullDriver.RegularIrq` | snull/snull.c:342-385 | The regular handler in place equals the model's on both devices, release outside the lock included |
| `SnullDriver.ReleaseBuffer` | snull/snull.c:156-167 | The buffer goes back to the pool of its own device, not the receiver's |
| `SnullDriver.DeliverFrame` | snull/snull.c:490-499 | Buffer taken, filled, queued on the twin, twin interrupted if enabled: equals the model's delivery |
| `SnullDriver.FinishSend` | snull/snull.c:501-512 | Raising or losing the transmit interrupt equals the model's |
| `SnullDriver.HwTx` | snull/snull.c:434-513 | Frames too short for an IP header change nothing; the others are rewritten in place and looped back as the model says, or fault if and only if the pool is empty |
| `SnullDriver.Transmit` | snull/snull.c:518-541 | The whole transmission equals a transmit step, faulting exactly where the model crashes; a long enough frame is rewritten in the caller's buffer, a short one only in a padded copy |
| `SnullDriver.PollDevice` | snull/snull.c:300-336 | The polling loop over the linked list equals a poll step, and the value returned is the number of frames handed up |
| `SnullDriver.TxTimeout` | snull/snull.c:547-562 | The watchdog handler equals a timeout step |
| `SnullDriver.Boot` | snull/snull.c:104-121 | Two freshly set up devices are the initial state of the model, with as many packets as were allocated, for every pattern of allocation failures |
| `SnullDriver.NeverStarved` | snull/snull.c:138-153 | On devices reached by a run without lockup and watchdog, the queue is stopped if and only if the linked pool is empty |
| `InternetChecksum.OcSumIsNorm` | snull/snull.c:474 | End-around-carry addition computes the plain sum modulo 0xFFFF, being 0 only for a zero sum |
| `InternetChecksum.VerifiesIff` | snull/snull.c:473-474 | A block verifies to 0xFFFF if and only if its field holds the canonical checksum, or 0xFFFF in place of a canonical 0 |
| `InternetChecksum.StoredChecksumVerifies` | snull/snull.c:473-474 | Storing the checksum of the cleared block makes the block verify |
| `InternetChecksum.ByteOrderIndependence` | linux-netdevice-driver-test/dummy-eth.c:149-154 | Summing and storing in little-endian order writes the same octets as in big-endian order (section 2(B) of RFC 1071) |
| `Ethernet.FixIpChecksumInPlace` | snull/snull.c:473-474 | Clearing the field and storing the sum, in place, stores the canonical checksum and nothing else |
| `Ethernet.FixedHeader` | snull/snull.c:473-474 | The rebuilt header is the old one with its canonical checksum, and verifies |
| `SnullFrame.RewriteInPlace` | snull/snull.c:449-474 | The in-place rewrite, and the frames it leaves alone |
| `SnullFrame.RewriteVerifies` | snull/snull.c:466-474 | Every rewritten frame verifies to 0xFFFF, whatever checksum it came with |
| `SnullFrame.RewriteFootprint` | snull/snull.c:470-474 | Only two address octets, with their low bit flipped, and the checksum change |
| `SnullFrame.RewriteTwice` | snull/snull.c:466-474 | Going through both devices only normalises the checksum |
| `SnullFrame.RoundTrip` | snull/snull.c:466-474 | A frame that verifies comes back octet for octet if and only if its checksum field is not 0xFFFF |
| `SnullFrame.RoundTripCounterexample` | snull/snull.c:466-474 | A frame that verifies with 0xFFFF in its field and does not come back |
| `SnullFrame.ParityLaw` | snull/snull.c:470-474 | From a canonical checksum, the rewrite leaves the field unchanged if and only if the low bits of the two third octets differ |
| `SnullFrame.HeaderInOctets` | snull/snull.c:466-474 | The header is the 4 * ihl octets behind the Ethernet header, ihl being the low half of the first |
| `SnullFrame.RewriteInOctets` | snull/snull.c:466-474 | The rewrite of every IPv4 frame, written out octet by octet |
| `SnullFrame.WireInOctets` | snull/snull.c:518-541 | What travels for every IPv4 frame, written out octet by octet: padded with zeros to 60 octets, neighbouring addresses, checksum of the header with its field cleared; at most 1500 octets may be submitted |
| `SnullFrame.WireZeros` | snull/snull.c:526-531 | Of any submitted frame: 60 octets or its own length if that is more, the added ones zero, the others kept, but for the two address octets and the checksum |
| `Reflector.ArpReplyAnswers` | linux-netdevice-driver-test/dummy-eth.c:69-105 | The reply names the address asked about with its synthetic MAC, goes back to the asker, keeps all other octets, and is not accepted as a request |
| `Reflector.ArpReplyInPlace` | linux-netdevice-driver-test/dummy-eth.c:69-105 | Accepts exactly Ethernet/IPv4 requests, overwrites the frame with the reply, leaves others alone |
| `Reflector.AnsweredIff` | linux-netdevice-driver-test/dummy-eth.c:77-128 | Which frames are answered, by their octets, in both directions |
| `Reflector.ArpRequestAnswered` | linux-netdevice-driver-test/dummy-eth.c:69-105 | Every ARP request for Ethernet and IPv4, written out in octets, is answered with the reply written out in octets, from 02:de and the address asked about |
| `Reflector.FakeMacInjective` | linux-netdevice-driver-test/dummy-eth.c:59-67 | Distinct addresses have distinct synthetic MACs |
| `Reflector.EchoReplyCorrect` | linux-netdevice-driver-test/dummy-eth.c:107-160 | Both sums verify, MACs and IPs are exchanged, the type is echo reply, every other octet is kept, and the reply is not accepted again |
| `Reflector.EchoRequestAnswered` | linux-netdevice-driver-test/dummy-eth.c:107-160 | Every echo request, written out in octets with any options, is answered with the reply written out in octets; an ICMP message of any other type is not answered |
| `Reflector.IpChecksumUnchanged` | linux-netdevice-driver-test/dummy-eth.c:139-149 | A canonical IP checksum is the same in the reply |
| `Reflector.IcmpChecksumLaw` | linux-netdevice-driver-test/dummy-eth.c:144-154 | For every request that verifies, the recomputed checksum is equation 3 in section 3 of RFC 1624 for the change of type, except for a reply that is zero apart from its checksum, where it is 0xFFFF and the equation gives 0 |
| `Reflector.IcmpReplyInPlace` | linux-netdevice-driver-test/dummy-eth.c:107-160 | Accepts exactly echo requests, overwrites the frame with the reply, leaves others alone |
| `Reflector.EthRx` | linux-netdevice-driver-test/dummy-eth.c:162-193 | The dispatch by protocol, in place, equals the reflection of the frame |
| `Reflector.ReflectOnce` | linux-netdevice-driver-test/dummy-eth.c:162-216 | What the reflector produced is not reflected again, and keeps its protocol |
| `DummyHw.Handoff` | linux-netdevice-driver-test/dummy-hw.c:30-88 | After any interleaving each submitted frame is in exactly one of queued, in hand, delivered, freed; delivered frames are reflections of submitted ones in submission order |
| `DummyHw.NothingLeft` | linux-netdevice-driver-test/dummy-hw.c:107-115 | After module exit each submitted frame was delivered or freed, exactly once |
| `DummyRegistration.RegisteredIsAsked` | linux-netdevice-driver-test/dummy-hw.c:75-88 | After any run the callback is set exactly when the last request asked for it |
| `DummyRegistration.DeregistrationFreesAll` | linux-netdevice-driver-test/dummy-hw.c:80-85 | Taking the callback away frees at once all that is queued, in order; until it is asked for again nothing is delivered, and what is in hand or submitted meanwhile is freed in its turn |
| `DummyRegistration.UnregisteredFreesAll` | linux-netdevice-driver-test/dummy-hw.c:40-42 | The same from any state without a callback |
| `DummyHw.RegisteredIsFifo` | linux-netdevice-driver-test/dummy-hw.c:30-72 | While the callback stays registered, the stack has received exactly the reflections of the accepted frames done with, in order |
| `DummyHw.RegisteredAtLoad` | linux-netdevice-driver-test/dummy-hw.c:75-79 | Registering before any submission starts such a stretch |
| `DummyStats.Statistics` | linux-netdevice-driver-test/dummy-eth.c:258-301 | For any assignment of steps to CPUs, the summed counters are the counts and octets of frames submitted and reflected, and received totals never exceed transmitted ones |
| `DummyStats.EachCpuCountsItsOwn` | linux-netdevice-driver-test/dummy-eth.c:201-208 | The counters of a CPU hold what the steps it ran submitted and handed up, and nothing else |
| `DummyNeighbour.NeighbourConsistency` | linux-netdevice-driver-test/dummy-eth.c:134-142 | If the host sends IP frames only to MACs learned from delivered ARP replies, every delivered echo reply has as source MAC the synthetic MAC of its source, and two replies share a MAC if and only if they share an address |
| `DummyDriver.TurnIsRun` | linux-netdevice-driver-test/dummy-hw.c:57-58 | A turn of the draining loop takes one frame off the queue and is two steps of a run |
| `DummyDriver.Driver.SendIrq` | linux-netdevice-driver-test/dummy-hw.c:30-46 | Nothing on an empty queue, else a dequeue and a dispatch step, the frame being reflected in place |
| `DummyDriver.Driver.Drain` | linux-netdevice-driver-test/dummy-hw.c:57-58 | The loop empties the queue and equals as many dequeue and dispatch steps as it held frames |
| `DummyDriver.Driver.GetStats` | linux-netdevice-driver-test/dummy-eth.c:277-301 | The accumulation loop returns the sum over all CPUs |
| `Netlink.WalkStaysInside` | netlink/route_show.c:169-202 | For every octet buffer, every attribute visited lies inside its own message behind its fixed part, and every message inside the datagram |
| `Netlink.AttrsPacked` | netlink/route_show.c:81-82 | Attributes visited do not overlap, are in order and inside what was left, even when the last aligned step takes the remaining length below zero |
| `Netlink.MsgsPacked` | netlink/route_show.c:169-171 | The same of messages |
| `Netlink.AttrWalk` | netlink/route_show.c:31-32 | Over a row of encoded attributes, final padding counted or not, the walk visits exactly those attributes |
| `Netlink.MsgWalk` | netlink/route_show.c:169-171 | The same of messages |
| `Netlink.AttrWalkStops` | netlink/route_show.c:81-82 | The attribute walk stops at the first broken header, having visited the attributes before it and nothing behind it |
| `Netlink.MsgWalkStops` | netlink/route_show.c:169-171 | The same of messages |
| `Netlink.AttrsRoundTrip` | netlink/route_show.c:81-82 | Encoding any list of attributes and walking it gives the list back |
| `Netlink.RoundTrip` | netlink/route_show.c:169-202 | Encoding any list of messages with any attributes, the nested walks recover exactly that list |
| `Netlink.NextAttr` | netlink/route_show.c:81 | Whether a whole attribute header with a plausible length is left, also for a negative remaining length |
| `Netlink.NextMsg` | netlink/route_show.c:170 | The same of messages |
| `Netlink.AlignUp` | netlink/route_show.c:82 | The next multiple of four |
| `RouteShow.WalkRoute` | netlink/route_show.c:80-93 | Where four octets can be read of every destination and gateway attribute, the loop ends holding the address of the last attribute of each type visited, or none |
| `RouteShow.PrintRoute` | netlink/route_show.c:59-97 | One line for a route of the main table, with prefix length, protocol, destination and gateway; nothing for other tables |
| `RouteShow.WalkLink` | netlink/route_show.c:31-55 | On every buffer the loop ends having extracted, in order, exactly the attributes of the four printed types |
| `RouteShow.PrintLink` | netlink/route_show.c:21-56 | Those attributes with the interface index, or nothing without one; no octet outside the message is needed |
| `RouteShow.PrintMessage` | netlink/route_show.c:173-201 | What each message type yields under the two flags, and which types end the exchange |
| `RouteShow.ProcessDatagram` | netlink/route_show.c:169-202 | All messages of a datagram in order, those behind a terminating one included; the end flag is set if and only if some message terminates |
| `RouteShow.SlackIsReadable` | netlink/route_show.c:69-97 | Whatever its octets are, a datagram that leaves six octets of the buffer free is processed without a read outside the buffer |
| `RouteShow.ProperIsReadable` | netlink/route_show.c:69-97 | A message with a whole family header and whole addresses is processed without a read outside itself |
| `RouteShow.ProcessResponses` | netlink/route_show.c:137-204 | The receive loop over datagrams, up to an error, an empty reply or the datagram that ends it |
| `RouteShow.PickIsLast` | netlink/route_show.c:83-92 | The overwriting loop yields the last attribute of the type in the encoded list |
| `RouteShow.KnownIsKnown` | netlink/route_show.c:33-54 | The printed attributes are the encoded ones of the printed types, in order |
| `RouteShow.DatagramMeaning` | netlink/route_show.c:137-204 | End to end: for every encoded list of messages, also one that fills the buffer, nothing outside the buffer is read, and what is printed is what the messages say, the last destination and gateway winning |
| `RouteShow.ReplyMeaning` | netlink/route_show.c:160-202 | A reply that carries encoded messages prints what they say, and ends the exchange if and only if one of them is an error (2) or the end of the dump (3) |
| `RouteShow.SessionMeaning` | netlink/route_show.c:142-203 | The whole exchange: everything said up to and including the datagram with the first error or end of dump is printed, whatever replies follow; without one, everything up to the first failed or empty reply |
| `ChatTable.TableConsistent` | select/chat-server/server.c:213-240 | Over every interleaving, client_count is the number of occupied slots, and the descriptors in the table are positive, distinct and open |
| `ChatTable.BroadcastOnce` | select/chat-server/server.c:242-250 | With distinct descriptors, a broadcast sends exactly once to every occupied slot but the sender's |
| `ChatTable.BroadcastReaches` | select/chat-server/server.c:242-250 | The same in every reachable state, to open descriptors only |
| `ChatTable.LeavingIsOut` | select/chat-server/server.c:193 | In every reachable state, a client that has been taken out is in no slot |
| `ChatTable.DepartureFrees` | select/chat-server/server.c:193-194 | A client leaves in two steps: first no slot holds its descriptor, then the descriptor is closed and may be accepted again; other clients are untouched |
| `ChatTable.SlotJustFilled` | select/chat-server/server.c:133-143 | Index client_count - 1 after an add is the slot just filled if and only if the occupied slots formed a non-full prefix |
| `ChatTable.HandedSlot` | select/chat-server/server.c:133-152 | In every reachable state with a client waiting for its thread, whoever left since the accept: the thread is handed the client's own slot if and only if the client is in the table with as many clients above its slot as holes below it; the index is in bounds if and only if some slot is occupied |
| `ChatTable.HandedAtOnce` | select/chat-server/server.c:133-143 | When the thread is created right after the add, if and only if the occupied slots formed a non-full prefix |
| `ChatTable.LeaverShiftsIndex` | select/chat-server/server.c:143 | A run in which the prefix condition holds at the accept, a client leaves, and the thread is handed a free slot |
| `ChatTable.LeaverEmptiesTable` | select/chat-server/server.c:143 | A run that hands out index -1 |
| `ChatTable.HoleExample` | select/chat-server/server.c:143 | Two clients, the first gone, a third added: the index is the second client's slot |
| `ChatTable.Server.AddClient` | select/chat-server/server.c:213-226 | The first free slot is filled and the counter bumped, or nothing happens on a full table |
| `ChatTable.Server.RemoveClient` | select/chat-server/server.c:228-240 | The first slot with the descriptor is freed and the counter lowered, or nothing happens |
| `ChatTable.Server.Broadcast` | select/chat-server/server.c:242-250 | The loop sends to the recipients in slot order |

## Left out

- SnullDriver.Transmit: asks for a frame with a full IPv4 header and at most 1500 octets, as SnullDriver.HwTx does; what is left of the devices after a fault is not described.
- SnullDriver.HwTx: asks for an IPv4 header with ihl of at least 5 inside the frame, and for at most 1500 octets (the size of a packet buffer); beyond that the C code reads or writes out of bounds.
- SnullFrame.RewriteInPlace: asks for the same header, which the C code takes for granted.
- Ethernet.FixIpChecksumInPlace: asks for the same header.
- Reflector.IcmpReplyInPlace: asks that an accepted request has ihl of at least 5 and a total length that covers the ICMP header and lies inside the frame; the C code does not check this and would sum octets past the frame.
- Reflector.EthRx: asks for the same, and leaves out the null skb and the null device.
- DummyDriver.Driver.Drain: covers the loop when nothing is submitted while it runs; all interleavings are covered by the steps of `DummyHw`.
- DummyDriver.Driver.Xmit: the frame is copied into the queue, so a sender that keeps writing to an skb it has handed over is not modelled. The queue insertion cannot fail, so the branch that frees the skb at once does not exist here. The links inside the kernel queue are not modelled.
- DummyDriver.Driver.SendIrq: the test of the callback and its call are one step, so the callback cannot be removed between the two; queued requests satisfy what Reflector.EthRx asks for.
- RouteShow.ProcessDatagram: asks that the octets read of each message lie in the buffer: the error code of an error, the table, prefix length and protocol octets of a route, and four octets of each of its destinations and gateways. The C code reads them without a test. `RouteShow.SlackIsReadable` and `RouteShow.ProperIsReadable` say when this holds.
- RouteShow.PrintLink: how the attributes are rendered is not modelled, so neither are the four octets read of an MTU or the terminator looked for in a name.
- RouteShow.DatagramMeaning: speaks of messages with a whole family header and whole addresses, as a kernel sends them.
- ChatTable.TableConsistent: thread creation succeeds, and `accept` returns a positive descriptor that is not open.
- Interleavings finer than one whole transmit, poll or timeout of snull; both devices stay open.
- `snull_open`, `snull_release`, ioctl, configuration, MTU and header operations, module init and exit of snull: kernel plumbing.
- Counters, the lockup parameter and status words are unbounded numbers and flags; integer wrap-around and negative module parameters are not modelled.
- Frames are linear; `pskb_may_pull` only tests the length. Transmits from inside the receive path are not modelled.
- `ip_fast_csum`, `csum_partial` and `csum_fold` are taken by their public definition, the netlink macros likewise, on a little-endian host.
- Printing, number and address formatting, socket set-up and the request side of `route_show.c`.
- The select loop, message texts and clean-up of the chat server, and its client.
- `netlink/route_monitor.c`, `netlink/netlinkKernel.c`, `netlink/netlinkUser.c`, `select/link_monitor`, `netfilter`, `sysfs`, `test-proc`: the same walk, simple counters or thin wrappers, which would only add easy members.
