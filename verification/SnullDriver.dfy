/**
 * The driver as it is written: packets linked through their next fields,
 * devices updated in place. Every operation is proved against the state machine
 * of SnullModel, so the theorems about its runs hold of these objects.
 */
module SnullDriver {
  import opened Options
  import opened Bytes
  import opened Ethernet
  import opened SnullFrame
  import opened SnullModel
  import opened SnullConservation
  import opened SnullFlow
  import opened SnullOrder
  import opened Counting

  class Packet {
    const dev: Device
    ghost const serial: nat
    const data: array<byte>
    var next: Packet?
    var datalen: nat
    ghost var list: PacketList?   // the list this packet is on, null while it is in hand
    ghost var pos: nat            // its position on that list, counted from the tail

    constructor (dev: Device, ghost serial: nat)
      ensures this.dev == dev && this.serial == serial && datalen == 0 && list == null
      ensures fresh(data) && data.Length == ETH_DATA_LEN
    {
      this.dev := dev;
      this.serial := serial;
      this.data := new byte[ETH_DATA_LEN];
      this.datalen := 0;
      this.list := null;
    }

    ghost function Name(): Pkt { Pkt(dev.id, serial) }

    ghost function Content(): Frame
      reads this`datalen, data
    {
      if datalen <= data.Length then data[..datalen] else data[..]
    }
  }

  ghost function Nth(s: seq<Packet>, k: nat): Packet? { if k < |s| then s[k] else null }

  /** A list threaded through the packets, used from its head only. */
  class PacketList {
    var head: Packet?
    ghost var nodes: seq<Packet>

    /** Following next from head visits exactly the nodes and ends in null. */
    ghost predicate Valid()
      reads this, nodes
    {
      && head == Nth(nodes, 0)
      && (forall k {:trigger nodes[k].next} | 0 <= k < |nodes| :: nodes[k].next == Nth(nodes, k + 1))
      && (forall k {:trigger nodes[k].list} | 0 <= k < |nodes| :: nodes[k].list == this)
      && (forall k {:trigger nodes[k].pos} | 0 <= k < |nodes| :: nodes[k].pos == |nodes| - 1 - k)
    }

    constructor ()
      ensures Valid() && nodes == []
    {
      head, nodes := null, [];
    }

    method Push(p: Packet)
      requires Valid() && p.list == null
      modifies this, p`next, p`list, p`pos
      ensures Valid() && nodes == [p] + old(nodes) && p.list == this
    {
      NotOn(p);
      p.next := head;
      p.list, p.pos := this, |nodes|;
      head := p;
      nodes := [p] + nodes;
    }

    method Pop() returns (p: Packet)
      requires Valid() && head != null
      modifies this, head`list
      ensures Valid() && p == old(nodes)[0] && nodes == old(nodes)[1..] && p.list == null
    {
      p := head;
      assert nodes[0].next == Nth(nodes, 1);
      forall k | 0 < k < |nodes| ensures nodes[k] != p { assert nodes[k].pos < nodes[0].pos; }
      head := p.next;
      p.list := null;
      nodes := nodes[1..];
    }

    lemma {:induction false} NotOn(p: Packet)
      requires Valid() && p.list != this
      ensures p !in nodes
    {
      forall k | 0 <= k < |nodes| ensures nodes[k] != p { assert nodes[k].list == this; }
    }

    /** A valid list holds no packet twice. */
    lemma {:induction false} Acyclic(a: nat, b: nat)
      requires Valid() && a < b < |nodes|
      ensures nodes[a] != nodes[b]
    {
      assert nodes[b].pos < nodes[a].pos;
    }
  }

  ghost predicate Unique(s: seq<Packet>) { forall a, b | 0 <= a < b < |s| :: s[a] != s[b] }

  lemma {:induction false} UniqueSize(s: seq<Packet>)
    requires Unique(s)
    ensures |set p | p in s| == |s|
  {
    if s != [] {
      UniqueSize(s[1..]);
      assert (set p | p in s) == (set p | p in s[1..]) + {s[0]};
      assert s[0] !in s[1..];
    }
  }

  lemma {:induction false} UniqueConcat(s: seq<Packet>, t: seq<Packet>)
    requires Unique(s) && Unique(t) && forall p | p in s :: p !in t
    ensures Unique(s + t)
  {
    forall a, b | 0 <= a < b < |s + t| ensures (s + t)[a] != (s + t)[b] {
      if a < |s| <= b { assert (s + t)[a] in s && (s + t)[b] in t; }
    }
  }

  lemma {:induction false} UniqueOcc(s: seq<Packet>, p: Packet)
    requires Unique(s)
    ensures Occ(s, p) == if p in s then 1 else 0
  {
    if s != [] {
      UniqueOcc(s[1..], p);
      assert s == [s[0]] + s[1..];
      assert s[0] !in s[1..];
    }
  }

  lemma {:induction false} SameSize(s: set<Packet>, t: set<Packet>)
    requires s <= t && |s| == |t|
    ensures s == t
  {
    if p :| p in t && p !in s {
      SubsetSize(s, t - {p});
    }
  }

  lemma {:induction false} SubsetSize(s: set<Packet>, t: set<Packet>)
    requires s <= t
    ensures |s| <= |t|
    decreases s
  {
    if s != {} {
      var p :| p in s;
      SubsetSize(s - {p}, t - {p});
    }
  }

  ghost function Head(l: PacketList): set<object>
    reads l
  {
    if l.head == null then {} else {l.head}
  }

  class Device {
    const id: Id
    const ppool: PacketList
    const rxQueue: PacketList
    var rxIntEnabled: bool
    var scheduled: bool
    var stopped: bool
    var rxIntr: bool
    var txIntr: bool
    var txPacketLen: nat
    var skb: Option<nat>
    var stats: Stats
    ghost var pool: seq<Pkt>
    ghost var rxq: seq<Cell>
    ghost var log: Log

    constructor (id: Id)
      ensures this.id == id && Lists() && State() == InitDev(id, 0)
      ensures fresh(ppool) && fresh(rxQueue) && ppool != rxQueue && ppool.nodes == [] && rxQueue.nodes == []
    {
      this.id := id;
      ppool := new PacketList();
      rxQueue := new PacketList();
      rxIntEnabled, scheduled, stopped, rxIntr, txIntr := true, false, false, false, false;
      txPacketLen, skb, stats := 0, None, Stats(0, 0, 0, 0, 0, 0);
      pool, rxq, log := [], [], Log([], [], [], []);
    }

    /** snull_setup_pool: allocation stops at the first failure. */
    method SetupPool(poolSize: nat, alloc: nat -> bool) returns (ghost owned: nat)
      requires Lists() && State() == InitDev(id, 0) && ppool.nodes == [] && rxQueue.nodes == []
      modifies this`pool, ppool
      ensures owned <= poolSize && (forall j: nat | j < owned :: alloc(j)) && (owned < poolSize ==> !alloc(owned))
      ensures Lists() && State() == InitDev(id, owned) && rxQueue.nodes == []
      ensures forall p | p in ppool.nodes :: fresh(p) && fresh(p.data) && p.data.Length == ETH_DATA_LEN && p.dev == this
      ensures forall p, q | p in ppool.nodes && q in ppool.nodes :: p.data == q.data ==> p == q
    {
      var i := 0;
      while i < poolSize
        invariant i <= poolSize && forall j: nat | j < i :: alloc(j)
        invariant Lists() && pool == InitDev(id, i).pool && rxQueue.nodes == []
        invariant forall p | p in ppool.nodes ::
                    fresh(p) && fresh(p.data) && p.data.Length == ETH_DATA_LEN && p.dev == this
        invariant forall p, q | p in ppool.nodes && q in ppool.nodes :: p.data == q.data ==> p == q
      {
        if !alloc(i) {
          return i;
        }
        ghost var was := ppool.nodes;
        AddPacket(i);
        i := i + 1;
        assert pool == InitDev(id, i).pool;
        assert ppool.nodes == [ppool.nodes[0]] + was;
        assert forall p | p in ppool.nodes :: p == ppool.nodes[0] || p in was;
      }
      return i;
    }

    method AddPacket(ghost i: nat)
      requires Lists() && rxQueue.nodes == []
      modifies this`pool, ppool
      ensures Lists() && pool == [Pkt(id, i)] + old(pool) && rxQueue.nodes == []
      ensures |ppool.nodes| == |old(ppool.nodes)| + 1 && ppool.nodes[1..] == old(ppool.nodes)
      ensures var p := ppool.nodes[0]; fresh(p) && fresh(p.data) && p.data.Length == ETH_DATA_LEN && p.dev == this
    {
      var pkt := new Packet(this, i);
      assert Open(0);
      PoolPush(ppool.nodes, pool, pkt);
      ppool.Push(pkt);
      pool := [pkt.Name()] + pool;
    }

    method UnlinkHead() returns (pkt: Packet)
      requires Lists() && ppool.head != null
      modifies this`pool, ppool, Head(ppool)
      ensures Lists() && pkt == old(ppool.head) && pkt.list == null && pkt.dev == this
      ensures old(ppool.nodes) == [pkt] + ppool.nodes && old(pool) == [pkt.Name()] + pool
      ensures rxQueue.nodes == old(rxQueue.nodes)
    {
      assert Open(0);
      assert ppool.nodes[0].list == ppool;
      rxQueue.NotOn(ppool.nodes[0]);
      PoolPop(ppool.nodes, pool);
      pkt := ppool.Pop();
      assert QueueShows(rxQueue.nodes, rxq);
      pool := pool[1..];
    }

    /** snull_teardown_pool: free what is in the pool, head first. */
    method TeardownPool() returns (freed: seq<Packet>)
      requires Lists()
      modifies this`pool, ppool, ppool.nodes
      ensures Lists() && pool == [] && freed == old(ppool.nodes)
      ensures |freed| == |old(pool)| && forall k | 0 <= k < |freed| :: freed[k].Name() == old(pool)[k]
    {
      PoolOf();
      freed := [];
      while ppool.head != null
        invariant Lists() && freed + ppool.nodes == old(ppool.nodes)
        invariant ppool.head == Nth(ppool.nodes, 0) && |ppool.nodes| == |pool|
        decreases |ppool.nodes|
      {
        assert ppool.head in freed + ppool.nodes;
        var pkt := UnlinkHead();
        assert freed + ([pkt] + ppool.nodes) == (freed + [pkt]) + ppool.nodes;
        freed := freed + [pkt];
        PoolOf();
      }
      assert freed == freed + ppool.nodes;
    }

    lemma {:induction false} PoolOf()
      requires Lists()
      ensures ppool.head == Nth(ppool.nodes, 0) && |ppool.nodes| == |pool|
      ensures forall k | 0 <= k < |pool| :: ppool.nodes[k].Name() == pool[k]
    {
      assert Open(0);
    }

    lemma {:induction false} PoolUnique()
      requires Lists()
      ensures Unique(ppool.nodes)
    {
      assert Open(0);
      forall a, b | 0 <= a < b < |ppool.nodes| ensures ppool.nodes[a] != ppool.nodes[b] { ppool.Acyclic(a, b); }
    }

    lemma {:induction false} QueueUnique()
      requires Lists()
      ensures Unique(rxQueue.nodes) && |rxQueue.nodes| == |rxq|
    {
      assert Open(0);
      forall a, b | 0 <= a < b < |rxQueue.nodes| ensures rxQueue.nodes[a] != rxQueue.nodes[b] { rxQueue.Acyclic(a, b); }
    }

    /** The state of the model that this device is in. */
    ghost function State(): Dev
      reads this
    {
      Dev(pool, rxq, rxIntEnabled, scheduled, stopped, rxIntr, txIntr, txPacketLen, skb, stats, log)
    }

    ghost predicate PoolShows(s: seq<Packet>, m: seq<Pkt>) {
      |s| == |m| && forall k | 0 <= k < |s| :: m[k] == s[k].Name() && s[k].dev == this
    }

    ghost predicate QueueShows(s: seq<Packet>, m: seq<Cell>)
      reads s, set p | p in s :: p.data
    {
      |s| == |m| && forall k | 0 <= k < |s| ::
        m[k] == Cell(s[k].Name(), s[k].Content()) && s[k].datalen <= s[k].data.Length && s[k].dev != this
    }

    /** The linked lists hold what the ghost lists say. */
    ghost predicate Lists()
      reads this`pool, this`rxq, ppool, rxQueue, ppool.nodes, rxQueue.nodes, set p | p in rxQueue.nodes :: p.data
    {
      forall x {:trigger Open(x)} | Open(x) ::
        && ppool != rxQueue && ppool.Valid() && rxQueue.Valid()
        && PoolShows(ppool.nodes, pool) && QueueShows(rxQueue.nodes, rxq)
    }

    lemma {:induction false} PoolPush(s: seq<Packet>, m: seq<Pkt>, p: Packet)
      requires PoolShows(s, m) && p.dev == this
      ensures PoolShows([p] + s, [p.Name()] + m)
    {
    }

    lemma {:induction false} PoolPop(s: seq<Packet>, m: seq<Pkt>)
      requires PoolShows(s, m) && s != []
      ensures PoolShows(s[1..], m[1..])
    {
    }

    lemma {:induction false} QueuePush(s: seq<Packet>, m: seq<Cell>, p: Packet)
      requires QueueShows(s, m) && p.dev != this && p.datalen <= p.data.Length
      ensures QueueShows([p] + s, [Cell(p.Name(), p.Content())] + m)
    {
    }

    /** A packet in hand or on another device's list is on neither list of this device. */
    lemma {:induction false} Elsewhere(p: Packet)
      requires Lists() && p.list != ppool && p.list != rxQueue
      ensures p !in ppool.nodes && p !in rxQueue.nodes
    {
      assert Open(0);
      ppool.NotOn(p);
      rxQueue.NotOn(p);
    }

    lemma {:induction false} HeadOfPool()
      requires Lists() && pool != []
      ensures ppool.nodes != [] && ppool.head == ppool.nodes[0] && ppool.nodes[0].list == ppool
    {
      assert Open(0);
    }

    lemma {:induction false} HeadOfQueue()
      requires Lists()
      ensures rxQueue.head == Nth(rxQueue.nodes, 0) && (rxQueue.head == null <==> rxq == [])
      ensures rxQueue.head != null ==> rxQueue.head.list == rxQueue
    {
      assert Open(0);
      if rxq != [] { assert rxQueue.nodes[0].list == rxQueue; }
    }

    method GetTxBuffer() returns (pkt: Packet)
      requires Lists() && pool != []
      modifies this`pool, this`stopped, ppool, Head(ppool)
      ensures Lists() && State() == TakeBuffer(old(State()))
      ensures old(ppool.nodes) == [pkt] + ppool.nodes && rxQueue.nodes == old(rxQueue.nodes)
      ensures pkt.list == null && pkt.dev == this && pkt.Name() == old(pool)[0]
    {
      PoolOf();
      pkt := UnlinkHead();
      PoolOf();
      if ppool.head == null {
        stopped := true;
      }
    }

    /** Put pkt back at the head of its own device's pool. */
    method Accept(pkt: Packet)
      requires Lists() && pkt.list == null && pkt.dev == this
      modifies this`pool, this`stopped, ppool, pkt`next, pkt`list, pkt`pos
      ensures Lists() && State() == GiveBack(old(State()), pkt.Name())
      ensures ppool.nodes == [pkt] + old(ppool.nodes) && rxQueue.nodes == old(rxQueue.nodes)
    {
      assert Open(0);
      rxQueue.NotOn(pkt);
      PoolPush(ppool.nodes, pool, pkt);
      ppool.Push(pkt);
      assert QueueShows(rxQueue.nodes, rxq);
      assert ppool.nodes[0].next == Nth(ppool.nodes, 1);
      pool := [pkt.Name()] + pool;
      if stopped && pkt.next == null {
        stopped := false;
      }
    }

    method EnqueueBuf(pkt: Packet)
      requires Lists() && pkt.list == null && pkt.dev != this && pkt.datalen <= pkt.data.Length
      modifies this`rxq, rxQueue, pkt`next, pkt`list, pkt`pos
      ensures Lists() && State() == Enqueue(old(State()), Cell(pkt.Name(), pkt.Content()))
      ensures rxQueue.nodes == [pkt] + old(rxQueue.nodes) && ppool.nodes == old(ppool.nodes)
    {
      assert Open(0);
      ppool.NotOn(pkt);
      rxQueue.NotOn(pkt);
      ghost var q := rxQueue.nodes;
      rxQueue.Push(pkt);
      QueuePush(q, rxq, pkt);
      rxq := [Cell(pkt.Name(), pkt.Content())] + rxq;
    }

    method DequeueBuf() returns (pkt: Packet?)
      requires Lists()
      modifies this`rxq, rxQueue, Head(rxQueue)
      ensures Lists() && ppool.nodes == old(ppool.nodes) && (pkt == null <==> old(rxq) == [])
      ensures pkt == null ==> State() == old(State()) && rxQueue.nodes == old(rxQueue.nodes)
      ensures pkt != null ==>
                && State() == old(State()).(rxq := old(rxq)[1..]) && old(rxQueue.nodes) == [pkt] + rxQueue.nodes
                && pkt.list == null && pkt.dev != this && pkt.datalen <= pkt.data.Length
                && old(rxq)[0] == Cell(pkt.Name(), pkt.Content())
    {
      assert Open(0);
      pkt := rxQueue.head;
      if pkt != null {
        assert rxQueue.nodes[0].list == rxQueue;
        ppool.NotOn(pkt);
        var _ := rxQueue.Pop();
        rxq := rxq[1..];
      }
    }

    /** snull_rx: the octets are copied into an skb for the stack, if there is one. */
    method Rx(pkt: Packet, ok: bool)
      requires pkt.datalen <= pkt.data.Length
      modifies this`stats, this`log
      ensures State() == Receive(old(State()), pkt.Content(), ok)
    {
      if !ok {
        stats := stats.(rxDropped := stats.rxDropped + 1);
        log := log.(dropped := log.dropped + [pkt.Content()]);
        return;
      }
      var octets := pkt.data[..pkt.datalen];
      stats := stats.(rxPackets := stats.rxPackets + 1, rxBytes := stats.rxBytes + |octets|);
      log := log.(up := log.up + [octets]);
    }

    method ReadStatus() returns (rx: bool, tx: bool)
      modifies this`rxIntr, this`txIntr
      ensures rx == old(rxIntr) && tx == old(txIntr) && State() == old(State()).(rxIntr := false, txIntr := false)
    {
      rx, tx := rxIntr, txIntr;
      rxIntr, txIntr := false, false;
    }

    /** The work of the regular interrupt handler: the packet received, if any, then the transmission done, if any. */
    method Service(pkt: Packet?, ok: bool, tx: bool)
      requires pkt != null ==> pkt.datalen <= pkt.data.Length
      modifies this`stats, this`log
      ensures var d := if pkt == null then old(State()) else Receive(old(State()), pkt.Content(), ok);
              State() == if tx then CompleteTx(d) else d
    {
      if pkt != null {
        Rx(pkt, ok);
      }
      if tx {
        Complete();
      }
    }

    /** snull_napi_interrupt: mask receive interrupts and schedule a poll. */
    method NapiIrq()
      modifies this`rxIntr, this`txIntr, this`rxIntEnabled, this`scheduled, this`stats, this`log
      ensures State() == AckTx(if old(rxIntr) then old(State()).(rxInt := false, scheduled := true) else old(State()))
    {
      var rx, tx := ReadStatus();
      if rx {
        rxIntEnabled, scheduled := false, true;
      }
      if tx {
        Complete();
      }
    }

    method RaiseRx()
      modifies this`rxIntr
      ensures State() == old(State()).(rxIntr := true)
    {
      rxIntr := true;
    }

    method RaiseTx(len: nat)
      modifies this`txIntr, this`txPacketLen
      ensures State() == old(State()).(txLen := len, txIntr := true)
    {
      txPacketLen := len;
      txIntr := true;
    }

    /** Set the status word to a transmit interrupt and nothing else. */
    method FakeTx()
      modifies this`rxIntr, this`txIntr
      ensures State() == old(State()).(rxIntr := false, txIntr := true)
    {
      rxIntr, txIntr := false, true;
    }

    method CountErrorAndWake()
      modifies this`stats, this`stopped
      ensures State() == old(State()).(stats := old(stats).(txErrors := old(stats).txErrors + 1), stopped := false)
    {
      stats := stats.(txErrors := stats.txErrors + 1);
      stopped := false;
    }

    /** napi_complete_done, then interrupts back on. */
    method CompletePoll()
      modifies this`scheduled, this`rxIntEnabled
      ensures State() == old(State()).(scheduled := false, rxInt := true)
    {
      scheduled := false;
      rxIntEnabled := true;
    }

    /** A transmission is over: free the skb. */
    method Complete()
      modifies this`stats, this`log
      ensures State() == CompleteTx(old(State()))
    {
      stats := stats.(txPackets := stats.txPackets + 1, txBytes := stats.txBytes + txPacketLen);
      log := log.(freed := log.freed + (if skb.Some? then [skb.value] else []));
    }
  }

  // --------------------------------------------------------- both devices

  /** What never changes: two devices, four lists, and a buffer of its own for every packet. */
  ghost predicate Wired(d: Device, e: Device, ps: set<Packet>) {
    forall x {:trigger Open(x)} | Open(x) ::
      && d != e && d.id == !e.id
      && d.ppool != d.rxQueue && d.ppool != e.ppool && d.ppool != e.rxQueue
      && d.rxQueue != e.ppool && d.rxQueue != e.rxQueue && e.ppool != e.rxQueue
      && (forall p | p in ps :: p.data.Length == ETH_DATA_LEN && (p.dev == d || p.dev == e))
      && (forall p, q | p in ps && q in ps :: p.data == q.data ==> p == q)
  }

  ghost predicate Within(d: Device, ps: set<Packet>)
    reads d.ppool, d.rxQueue
  {
    forall x {:trigger Open(x)} | Open(x) ::
      (forall p | p in d.ppool.nodes :: p in ps) && (forall p | p in d.rxQueue.nodes :: p in ps)
  }

  ghost function Repr(d: Device, e: Device, ps: set<Packet>): set<object> {
    {d, e, d.ppool, d.rxQueue, e.ppool, e.rxQueue} + ps + (set p | p in ps :: p.data)
  }

  ghost predicate Valid(d: Device, e: Device, ps: set<Packet>)
    reads d`pool, d`rxq, d.ppool, d.rxQueue, d.ppool.nodes, d.rxQueue.nodes, set p | p in d.rxQueue.nodes :: p.data
    reads e`pool, e`rxq, e.ppool, e.rxQueue, e.ppool.nodes, e.rxQueue.nodes, set p | p in e.rxQueue.nodes :: p.data
  {
    Wired(d, e, ps) && Within(d, ps) && Within(e, ps) && d.Lists() && e.Lists()
  }

  ghost function Pair(i: Id, d: Dev, e: Dev): Net { if i then Net(e, d) else Net(d, e) }

  /** The state of the model that both devices together are in. */
  ghost function View(d: Device, e: Device): Net
    reads d, e
  {
    Pair(d.id, d.State(), e.State())
  }

  lemma {:induction false} Symmetric(d: Device, e: Device, ps: set<Packet>)
    requires Valid(d, e, ps)
    ensures Valid(e, d, ps) && Repr(e, d, ps) == Repr(d, e, ps) && View(e, d) == View(d, e) && d != e && d.id == !e.id
  {
    assert Open(0);
    assert Wired(e, d, ps);
  }

  method TakeTx(d: Device, e: Device, ghost ps: set<Packet>) returns (pkt: Packet)
    requires Valid(d, e, ps) && d.pool != []
    modifies Repr(d, e, ps)
    ensures Valid(d, e, ps) && d.State() == TakeBuffer(old(d.State())) && e.State() == old(e.State())
    ensures pkt in ps && pkt.list == null && pkt.dev == d && pkt.Name() == old(d.pool)[0]
  {
    assert Open(0);
    d.HeadOfPool();
    e.Elsewhere(d.ppool.head);
    pkt := d.GetTxBuffer();
    assert e.Lists();
  }

  /** Copy the frame and its length into the packet. */
  method Fill(d: Device, e: Device, ghost ps: set<Packet>, pkt: Packet, buf: array<byte>)
    requires Valid(d, e, ps) && pkt in ps && pkt.list == null
    requires buf.Length <= ETH_DATA_LEN && buf !in Repr(d, e, ps)
    modifies pkt`datalen, pkt.data
    ensures Valid(d, e, ps) && pkt.datalen <= pkt.data.Length && pkt.Content() == buf[..]
  {
    NotShared(d, e, ps, pkt);
    pkt.datalen := buf.Length;
    forall k | 0 <= k < buf.Length {
      pkt.data[k] := buf[k];
    }
    assert d.Lists() && e.Lists();
    assert pkt.data[..buf.Length] == buf[..];
  }

  lemma {:induction false} NotShared(d: Device, e: Device, ps: set<Packet>, pkt: Packet)
    requires Valid(d, e, ps) && pkt in ps && pkt.list == null
    ensures pkt.data.Length == ETH_DATA_LEN
    ensures pkt !in d.ppool.nodes && pkt !in d.rxQueue.nodes && pkt !in e.ppool.nodes && pkt !in e.rxQueue.nodes
    ensures forall p | p in d.rxQueue.nodes :: p.data != pkt.data
    ensures forall p | p in e.rxQueue.nodes :: p.data != pkt.data
  {
    assert Open(0);
    d.Elsewhere(pkt);
    e.Elsewhere(pkt);
  }

  /** Put a filled packet of e on the receive list of d. */
  method PutRx(d: Device, e: Device, ghost ps: set<Packet>, pkt: Packet)
    requires Valid(d, e, ps) && pkt in ps && pkt.list == null && pkt.dev == e && pkt.datalen <= pkt.data.Length
    modifies Repr(d, e, ps)
    ensures Valid(d, e, ps) && e.State() == old(e.State())
    ensures d.State() == Enqueue(old(d.State()), Cell(pkt.Name(), old(pkt.Content())))
  {
    assert Open(0);
    e.Elsewhere(pkt);
    d.EnqueueBuf(pkt);
    assert e.Lists();
  }

  /** The head of the receive list of d is a packet of e that no other list holds. */
  lemma {:induction false} QueueHeadInside(d: Device, e: Device, ps: set<Packet>)
    requires Valid(d, e, ps)
    ensures var h := d.rxQueue.head;
            && d != e && (h == null <==> d.rxq == []) && h == Nth(d.rxQueue.nodes, 0)
            && (h != null ==> h in ps && h !in e.ppool.nodes && h !in e.rxQueue.nodes && (h.dev != d ==> h.dev == e))
            && d.rxQueue != e.ppool && d.rxQueue != e.rxQueue
  {
    assert Open(0);
    d.HeadOfQueue();
    if d.rxQueue.head != null { e.Elsewhere(d.rxQueue.head); }
  }

  lemma {:induction false} InsideIs(d: Device, ps: set<Packet>)
    requires Within(d, ps)
    ensures (forall p | p in d.ppool.nodes :: p in ps) && (forall p | p in d.rxQueue.nodes :: p in ps)
  {
    assert Open(0);
  }

  lemma {:induction false} StayInside(d: Device, ps: set<Packet>, pool: seq<Packet>, queue: seq<Packet>)
    requires (forall p | p in pool :: p in ps) && (forall p | p in queue :: p in ps)
    requires d.ppool.nodes == pool && (d.rxQueue.nodes == queue || (queue != [] && d.rxQueue.nodes == queue[1..]))
    ensures Within(d, ps)
  {
  }

  method TakeRx(d: Device, e: Device, ghost ps: set<Packet>) returns (pkt: Packet?)
    requires Valid(d, e, ps)
    modifies Repr(d, e, ps)
    ensures Valid(d, e, ps) && e.State() == old(e.State()) && (pkt == null <==> old(d.rxq) == [])
    ensures pkt == null ==> d.State() == old(d.State())
    ensures pkt != null ==>
              && d.State() == old(d.State()).(rxq := old(d.rxq)[1..])
              && pkt in ps && pkt.list == null && pkt.dev == e && pkt.datalen <= pkt.data.Length
              && old(d.rxq)[0] == Cell(pkt.Name(), pkt.Content())
  {
    QueueHeadInside(d, e, ps);
    InsideIs(d, ps);
    ghost var pool, queue := d.ppool.nodes, d.rxQueue.nodes;
    pkt := d.DequeueBuf();
    assert e.Lists() && Within(e, ps);
    assert pkt != null ==> d.rxQueue.nodes == queue[1..];
    StayInside(d, ps, pool, queue);
  }

  /** snull_release_buffer, for a packet of e. */
  method ReleaseBuffer(d: Device, e: Device, ghost ps: set<Packet>, pkt: Packet)
    requires Valid(d, e, ps) && pkt in ps && pkt.list == null && pkt.dev == e
    modifies Repr(d, e, ps)
    ensures Valid(d, e, ps) && d.State() == old(d.State())
    ensures e.State() == GiveBack(old(e.State()), pkt.Name()) && pkt.Name().dev == !d.id
  {
    assert Open(0);
    d.Elsewhere(pkt);
    e.Accept(pkt);
    assert d.Lists();
  }

  // ---------------------------------------------------------- interrupts

  /** RegularInterrupt on a pair of devices, the interrupted one first. */
  ghost function IrqReceiver(d: Dev, ok: bool): Dev {
    AckTx(if d.rxIntr && d.rxq != [] then Receive(d.(rxq := d.rxq[1..]), d.rxq[0].frame, ok) else d)
  }

  ghost function IrqSender(d: Dev, e: Dev): Dev {
    if d.rxIntr && d.rxq != [] then GiveBack(e, d.rxq[0].pkt) else e
  }

  lemma {:induction false} IrqPair(i: Id, d: Dev, e: Dev, ok: bool)
    requires d.rxIntr && d.rxq != [] ==> d.rxq[0].pkt.dev == !i
    ensures RegularInterrupt(Pair(i, d, e), i, ok) == Pair(i, IrqReceiver(d, ok), IrqSender(d, e))
  {
  }

  lemma {:induction false} AckAfterReceive(d: Dev, f: Frame, ok: bool)
    ensures var r := Receive(d.(rxIntr := false, txIntr := false), f, ok);
            AckTx(Receive(d, f, ok)) == if d.txIntr then CompleteTx(r) else r
  {
  }

  /** Read and clear the status word, and take the head of the receive list if it says so. */
  method Fetch(d: Device, e: Device, ghost ps: set<Packet>) returns (pkt: Packet?, tx: bool)
    requires Valid(d, e, ps)
    modifies Repr(d, e, ps)
    ensures Valid(d, e, ps) && e.State() == old(e.State()) && tx == old(d.txIntr)
    ensures pkt != null <==> old(d.rxIntr) && old(d.rxq) != []
    ensures pkt == null ==> d.State() == old(d.State()).(rxIntr := false, txIntr := false)
    ensures pkt != null ==>
              && d.State() == old(d.State()).(rxq := old(d.rxq)[1..], rxIntr := false, txIntr := false)
              && pkt in ps && pkt.list == null && pkt.dev == e && pkt.datalen <= pkt.data.Length
              && old(d.rxq)[0] == Cell(pkt.Name(), pkt.Content())
  {
    Symmetric(d, e, ps);
    var rx;
    rx, tx := d.ReadStatus();
    assert Valid(d, e, ps) && e.State() == old(e.State());
    pkt := null;
    if rx {
      pkt := TakeRx(d, e, ps);
    }
  }

  /** Pass the packet up, finish the transmission, and give the packet back outside the lock. */
  method Finish(d: Device, e: Device, ghost ps: set<Packet>, pkt: Packet?, ok: bool, tx: bool)
    requires Valid(d, e, ps)
    requires pkt != null ==> pkt in ps && pkt.list == null && pkt.dev == e && pkt.datalen <= pkt.data.Length
    modifies Repr(d, e, ps)
    ensures Valid(d, e, ps)
    ensures var r := if pkt == null then old(d.State()) else Receive(old(d.State()), old(pkt.Content()), ok);
            d.State() == if tx then CompleteTx(r) else r
    ensures if pkt == null then e.State() == old(e.State())
            else e.State() == GiveBack(old(e.State()), pkt.Name()) && pkt.Name().dev == !d.id
  {
    Symmetric(d, e, ps);
    d.Service(pkt, ok, tx);
    assert Valid(d, e, ps) && e.State() == old(e.State());
    if pkt != null {
      ReleaseBuffer(d, e, ps, pkt);
    }
  }

  /** snull_regular_interrupt, on device d. */
  method RegularIrq(d: Device, e: Device, ghost ps: set<Packet>, ok: bool)
    requires Valid(d, e, ps)
    modifies Repr(d, e, ps)
    ensures Valid(d, e, ps)
    ensures d.State() == IrqReceiver(old(d.State()), ok) && e.State() == IrqSender(old(d.State()), old(e.State()))
    ensures old(d.rxIntr) && old(d.rxq) != [] ==> old(d.rxq)[0].pkt.dev == !d.id
  {
    ghost var m := d.State();
    var pkt, tx := Fetch(d, e, ps);
    if pkt != null { AckAfterReceive(m.(rxq := m.rxq[1..]), m.rxq[0].frame, ok); }
    Finish(d, e, ps, pkt, ok, tx);
  }

  method Irq(cfg: Config, d: Device, e: Device, ghost ps: set<Packet>, ok: bool)
    requires Valid(d, e, ps)
    modifies Repr(d, e, ps)
    ensures Valid(d, e, ps) && View(d, e) == Interrupt(cfg, old(View(d, e)), d.id, ok)
  {
    Symmetric(d, e, ps);
    ghost var m, n := d.State(), e.State();
    if cfg.napi {
      d.NapiIrq();
      assert Valid(d, e, ps) && e.State() == n;
    } else {
      RegularIrq(d, e, ps, ok);
      IrqPair(d.id, m, n, ok);
    }
  }

  // ------------------------------------------- registers of one device

  method RaiseTx(d: Device, e: Device, ghost ps: set<Packet>, len: nat)
    requires Valid(d, e, ps)
    modifies d`txIntr, d`txPacketLen
    ensures Valid(d, e, ps) && d.State() == old(d.State()).(txLen := len, txIntr := true)
  {
    assert d.Lists() && e.Lists() && Within(d, ps) && Within(e, ps);
    d.RaiseTx(len);
  }

  method Stop(d: Device, e: Device, ghost ps: set<Packet>)
    requires Valid(d, e, ps)
    modifies d`stopped
    ensures Valid(d, e, ps) && d.State() == old(d.State()).(stopped := true)
  {
    assert d.Lists() && e.Lists() && Within(d, ps) && Within(e, ps);
    d.stopped := true;
  }

  /** Set the status word to a transmit interrupt and nothing else. */
  method FakeTx(d: Device, e: Device, ghost ps: set<Packet>)
    requires Valid(d, e, ps)
    modifies d`rxIntr, d`txIntr
    ensures Valid(d, e, ps) && d.State() == old(d.State()).(rxIntr := false, txIntr := true)
  {
    assert d.Lists() && e.Lists() && Within(d, ps) && Within(e, ps);
    d.FakeTx();
  }

  method CountErrorAndWake(d: Device, e: Device, ghost ps: set<Packet>)
    requires Valid(d, e, ps)
    modifies d`stats, d`stopped
    ensures Valid(d, e, ps)
    ensures d.State()
            == old(d.State()).(stats := old(d.stats).(txErrors := old(d.stats).txErrors + 1), stopped := false)
  {
    assert d.Lists() && e.Lists() && Within(d, ps) && Within(e, ps);
    d.CountErrorAndWake();
  }

  /** napi_complete_done, then interrupts back on. */
  method CompletePoll(d: Device, e: Device, ghost ps: set<Packet>)
    requires Valid(d, e, ps)
    modifies d`scheduled, d`rxIntEnabled
    ensures Valid(d, e, ps) && d.State() == old(d.State()).(scheduled := false, rxInt := true)
  {
    assert d.Lists() && e.Lists() && Within(d, ps) && Within(e, ps);
    d.CompletePoll();
  }

  // --------------------------------------------------------------- steps

  lemma {:induction false} DeliverPair(cfg: Config, i: Id, d: Dev, e: Dev, f: Frame, ok: bool)
    requires d.pool != []
    ensures var q := Enqueue(e, Cell(d.pool[0], f));
            Deliver(cfg, Pair(i, d, e), i, f, ok)
            == if q.rxInt then Interrupt(cfg, Pair(i, TakeBuffer(d), q.(rxIntr := true)), !i, ok)
               else Pair(i, TakeBuffer(d), q)
  {
  }

  /** Move the frame in buf from the pool of d to the receive list of e. */
  method Queue(d: Device, e: Device, ghost ps: set<Packet>, buf: array<byte>)
    requires Valid(d, e, ps) && d.pool != []
    requires buf.Length <= ETH_DATA_LEN && buf !in Repr(d, e, ps)
    modifies Repr(d, e, ps)
    ensures Valid(d, e, ps) && d.State() == TakeBuffer(old(d.State()))
    ensures e.State() == Enqueue(old(e.State()), Cell(old(d.pool)[0], buf[..]))
  {
    Symmetric(d, e, ps);
    var pkt := TakeTx(d, e, ps);
    Fill(d, e, ps, pkt, buf);
    Symmetric(d, e, ps);
    PutRx(e, d, ps, pkt);
    Symmetric(e, d, ps);
  }

  /** The second half of snull_hw_tx: queue the frame on the twin and interrupt it. */
  method DeliverFrame(cfg: Config, d: Device, e: Device, ghost ps: set<Packet>, buf: array<byte>, ok: bool)
    requires Valid(d, e, ps) && d.pool != []
    requires buf.Length <= ETH_DATA_LEN && buf !in Repr(d, e, ps)
    modifies Repr(d, e, ps)
    ensures Valid(d, e, ps) && View(d, e) == Deliver(cfg, old(View(d, e)), d.id, buf[..], ok)
  {
    Symmetric(d, e, ps);
    DeliverPair(cfg, d.id, d.State(), e.State(), buf[..], ok);
    Queue(d, e, ps, buf);
    if e.rxIntEnabled {
      e.RaiseRx();
      Symmetric(d, e, ps);
      Irq(cfg, e, d, ps, ok);
      Symmetric(e, d, ps);
    }
  }

  /** Raise the transmit-done interrupt on d, or simulate losing it. */
  method FinishSend(cfg: Config, d: Device, e: Device, ghost ps: set<Packet>, len: nat, ok: bool)
    requires Valid(d, e, ps)
    modifies Repr(d, e, ps)
    ensures Valid(d, e, ps) && View(d, e) == FinishTx(cfg, old(View(d, e)), d.id, len, ok)
  {
    Symmetric(d, e, ps);
    FinishPair(cfg, d.id, d.State(), e.State(), len, ok);
    RaiseTx(d, e, ps, len);
    if cfg.lockup > 0 && (d.stats.txPackets + 1) % cfg.lockup == 0 {
      Stop(d, e, ps);
    } else {
      Irq(cfg, d, e, ps, ok);
    }
  }

  /** snull_tx_timeout */
  method TxTimeout(cfg: Config, d: Device, e: Device, ghost ps: set<Packet>)
    requires Valid(d, e, ps)
    modifies Repr(d, e, ps)
    ensures Valid(d, e, ps) && View(d, e) == Timeout(cfg, old(View(d, e)), d.id)
  {
    Symmetric(d, e, ps);
    ghost var m, n := d.State(), e.State();
    FakeTx(d, e, ps);
    Irq(cfg, d, e, ps, true);
    TimeoutPair(cfg, d.id, m, n, d.State(), e.State());
    CountErrorAndWake(d, e, ps);
  }

  lemma {:induction false} TimeoutPair(cfg: Config, i: Id, d: Dev, e: Dev, d': Dev, e': Dev)
    requires Pair(i, d', e') == Interrupt(cfg, Pair(i, d.(rxIntr := false, txIntr := true), e), i, true)
    ensures Timeout(cfg, Pair(i, d, e), i)
            == Pair(i, d'.(stats := d'.stats.(txErrors := d'.stats.txErrors + 1), stopped := false), e')
  {
  }

  lemma {:induction false} FinishPair(cfg: Config, i: Id, d: Dev, e: Dev, len: nat, ok: bool)
    ensures var d' := d.(txLen := len, txIntr := true);
            FinishTx(cfg, Pair(i, d, e), i, len, ok)
            == if cfg.lockup > 0 && (d.stats.txPackets + 1) % cfg.lockup == 0 then Pair(i, d'.(stopped := true), e)
               else Interrupt(cfg, Pair(i, d', e), i, ok)
  {
  }

  /** One turn of the loop of snull_poll. */
  method PollTurn(d: Device, e: Device, ghost ps: set<Packet>, ok: bool)
    requires Valid(d, e, ps) && d.rxq != []
    modifies Repr(d, e, ps)
    ensures Valid(d, e, ps) && View(d, e) == ReceiveHead(old(View(d, e)), d.id, ok)
    ensures |d.rxq| < |old(d.rxq)|
  {
    Symmetric(d, e, ps);
    var pkt := TakeRx(d, e, ps);
    Finish(d, e, ps, pkt, ok, false);
  }

  /** snull_poll; ok(k) tells whether the k-th skb allocation succeeds. */
  method PollDevice(d: Device, e: Device, ghost ps: set<Packet>, budget: nat, ok: nat -> bool) returns (npackets: nat)
    requires Valid(d, e, ps)
    modifies Repr(d, e, ps)
    ensures Valid(d, e, ps) && (View(d, e), npackets) == Poll(old(View(d, e)), d.id, budget, ok)
    ensures npackets == |d.log.up| - |old(d.log.up)| <= budget
  {
    npackets := 0;
    var k := 0;
    ghost var n := View(d, e);
    d.HeadOfQueue();
    while npackets < budget && d.rxQueue.head != null
      invariant Valid(d, e, ps)
      invariant d.rxQueue.head == null <==> d.rxq == []
      invariant PollLoop(View(d, e), d.id, budget, ok, npackets, k) == PollLoop(n, d.id, budget, ok, 0, 0)
      decreases |d.rxq|
    {
      Symmetric(d, e, ps);
      PollTurn(d, e, ps, ok(k));
      npackets := if ok(k) then npackets + 1 else npackets;
      k := k + 1;
      d.HeadOfQueue();
    }
    Symmetric(d, e, ps);
    PollReturns(n, d.id, budget, ok);
    if npackets < budget {
      CompletePoll(d, e, ps);
    }
    assert View(d, e).Get(d.id) == d.State() && n.Get(d.id).log == old(d.log);
  }

  /**
   * snull_hw_tx: frames too short for an IP header are ignored. A fault is where
   * the driver follows the NULL head of an empty pool.
   */
  method HwTx(cfg: Config, d: Device, e: Device, ghost ps: set<Packet>, buf: array<byte>, ok: bool)
    returns (fault: bool)
    requires Valid(d, e, ps) && buf.Length <= ETH_DATA_LEN && buf !in Repr(d, e, ps)
    requires buf.Length >= ETH_HLEN + IP_HLEN ==> HasIpHeader(buf[..])
    modifies Repr(d, e, ps), buf
    ensures Valid(d, e, ps) && (fault <==> buf.Length >= ETH_HLEN + IP_HLEN && old(d.pool) == [])
    ensures buf.Length < ETH_HLEN + IP_HLEN ==> View(d, e) == old(View(d, e)) && buf[..] == old(buf[..])
    ensures buf.Length >= ETH_HLEN + IP_HLEN ==>
              var f := Rewrite(old(buf[..]));
              && buf[..] == f
              && (!fault ==>
                    View(d, e) == FinishTx(cfg, Deliver(cfg, old(View(d, e)), d.id, f, ok), d.id, |f|, ok))
  {
    Symmetric(d, e, ps);
    assert d.Lists() && e.Lists() && Within(d, ps) && Within(e, ps);
    var sent := RewriteInPlace(buf);
    assert Valid(d, e, ps) && View(d, e) == old(View(d, e));
    d.PoolOf();
    fault := sent && d.ppool.head == null;
    if sent && !fault {
      Loopback(cfg, d, e, ps, buf, ok);
    }
  }

  /** What snull_hw_tx does with the rewritten frame. */
  method Loopback(cfg: Config, d: Device, e: Device, ghost ps: set<Packet>, buf: array<byte>, ok: bool)
    requires Valid(d, e, ps) && d.pool != []
    requires buf.Length <= ETH_DATA_LEN && buf !in Repr(d, e, ps)
    modifies Repr(d, e, ps)
    ensures Valid(d, e, ps)
    ensures View(d, e) == FinishTx(cfg, Deliver(cfg, old(View(d, e)), d.id, buf[..], ok), d.id, buf.Length, ok)
  {
    Symmetric(d, e, ps);
    DeliverFrame(cfg, d, e, ps, buf, ok);
    FinishSend(cfg, d, e, ps, buf.Length, ok);
  }

  /**
   * snull_tx: a long enough frame is rewritten where it is, a short one in a
   * padded copy. A fault is the crash of the model.
   */
  method Transmit(cfg: Config, d: Device, e: Device, ghost ps: set<Packet>, skb: nat, data: array<byte>, ok: bool)
    returns (fault: bool)
    requires Valid(d, e, ps) && Sendable(data[..]) && data !in Repr(d, e, ps)
    modifies Repr(d, e, ps), data
    ensures Valid(d, e, ps)
    ensures Tx(cfg, old(View(d, e)), d.id, skb, old(data[..]), ok) == if fault then None else Some(View(d, e))
    ensures data[..] == if data.Length < ETH_ZLEN then old(data[..]) else Wire(old(data[..]))
  {
    var buf := PadFrame(data);
    fault := SendPadded(cfg, d, e, ps, skb, data[..], buf, ok);
  }

  method SendPadded(
    cfg: Config, d: Device, e: Device, ghost ps: set<Packet>, skb: nat, ghost f: Frame, buf: array<byte>, ok: bool)
    returns (fault: bool)
    requires Valid(d, e, ps) && Sendable(f) && buf[..] == Pad(f) && buf !in Repr(d, e, ps)
    modifies Repr(d, e, ps), buf
    ensures Valid(d, e, ps)
    ensures Tx(cfg, old(View(d, e)), d.id, skb, f, ok) == if fault then None else Some(View(d, e))
    ensures buf[..] == Wire(f)
  {
    ghost var x := Sent(skb, Wire(f));
    WireIs(f);
    Symmetric(d, e, ps);
    TxPair(cfg, d.id, d.State(), e.State(), x, f, ok);
    Remember(d, e, ps, skb, x);
    fault := HwTx(cfg, d, e, ps, buf, ok);
  }

  lemma {:induction false} TxPair(cfg: Config, i: Id, d: Dev, e: Dev, x: Sent, f: Frame, ok: bool)
    requires Sendable(f) && x.frame == Wire(f)
    ensures Tx(cfg, Pair(i, d, e), i, x.skb, f, ok)
            == if d.pool == [] then None
               else Some(FinishTx(cfg, Deliver(cfg, Pair(i, Record(d, x), e), i, x.frame, ok), i, |x.frame|, ok))
  {
  }

  /** The frame itself, or a zero-padded copy of it. */
  method PadFrame(data: array<byte>) returns (buf: array<byte>)
    ensures buf[..] == Pad(data[..])
    ensures if data.Length < ETH_ZLEN then fresh(buf) else buf == data
  {
    if data.Length >= ETH_ZLEN {
      return data;
    }
    buf := new byte[ETH_ZLEN](_ => 0);
    forall k | 0 <= k < data.Length {
      buf[k] := data[k];
    }
    assert buf[..] == data[..] + Zeros(ETH_ZLEN - data.Length);
  }

  /** Remember the skb, to be freed when its transmission is over. */
  method Remember(d: Device, e: Device, ghost ps: set<Packet>, skb: nat, ghost x: Sent)
    requires Valid(d, e, ps) && x.skb == skb
    modifies d`skb, d`log
    ensures Valid(d, e, ps) && d.State() == Record(old(d.State()), x)
  {
    assert d.Lists() && e.Lists() && Within(d, ps) && Within(e, ps);
    d.skb := Some(skb);
    d.log := d.log.(sent := d.log.sent + [x]);
  }

  /** Both devices at module load. */
  method Boot(poolSize: nat, alloc0: nat -> bool, alloc1: nat -> bool)
    returns (d: Device, e: Device, ghost ps: set<Packet>, ghost owned0: nat, ghost owned1: nat)
    ensures Valid(d, e, ps) && !d.id && View(d, e) == Init(owned0, owned1)
    ensures fresh(d) && fresh(e) && forall p | p in ps :: fresh(p) && fresh(p.data)
    ensures owned0 <= poolSize && (poolSize > 0 && alloc0(0) ==> owned0 >= 1)
    ensures owned1 <= poolSize && (poolSize > 0 && alloc1(0) ==> owned1 >= 1)
    ensures |ps| == owned0 + owned1
  {
    d, owned0 := NewDevice(false, poolSize, alloc0);
    e, owned1 := NewDevice(true, poolSize, alloc1);
    ps := (set p | p in d.ppool.nodes) + (set p | p in e.ppool.nodes);
    Assemble(d, e, ps);
    d.PoolOf();
    e.PoolOf();
    d.PoolUnique();
    e.PoolUnique();
    UniqueSize(d.ppool.nodes);
    UniqueSize(e.ppool.nodes);
    assert (set p | p in d.ppool.nodes) !! (set p | p in e.ppool.nodes);
  }

  method NewDevice(id: Id, poolSize: nat, alloc: nat -> bool) returns (d: Device, ghost owned: nat)
    ensures fresh(d) && fresh(d.ppool) && fresh(d.rxQueue) && d.ppool != d.rxQueue
    ensures d.id == id && d.Lists() && d.State() == InitDev(id, owned) && d.rxQueue.nodes == []
    ensures owned <= poolSize && (poolSize > 0 && alloc(0) ==> owned >= 1)
    ensures forall p | p in d.ppool.nodes :: fresh(p) && fresh(p.data) && p.data.Length == ETH_DATA_LEN && p.dev == d
    ensures forall p, q | p in d.ppool.nodes && q in d.ppool.nodes :: p.data == q.data ==> p == q
  {
    d := new Device(id);
    owned := d.SetupPool(poolSize, alloc);
  }

  lemma {:induction false} Assemble(d: Device, e: Device, ps: set<Packet>)
    requires d != e && d.id == !e.id && d.Lists() && e.Lists() && d.rxQueue.nodes == [] && e.rxQueue.nodes == []
    requires d.ppool != d.rxQueue && d.ppool != e.ppool && d.ppool != e.rxQueue
    requires d.rxQueue != e.ppool && d.rxQueue != e.rxQueue && e.ppool != e.rxQueue
    requires forall p | p in ps :: p in d.ppool.nodes || p in e.ppool.nodes
    requires forall p | p in d.ppool.nodes :: p in ps && p.data.Length == ETH_DATA_LEN && p.dev == d
    requires forall p | p in e.ppool.nodes :: p in ps && p.data.Length == ETH_DATA_LEN && p.dev == e
    requires forall p, q | p in ps && q in ps :: p.data == q.data ==> p == q
    ensures Valid(d, e, ps)
  {
    assert Open(0);
  }

  /** The four lists share no packet. */
  lemma {:induction false} ListsDisjoint(d: Device, e: Device, ps: set<Packet>, p: Packet)
    requires Valid(d, e, ps)
    ensures p in d.ppool.nodes ==> p !in d.rxQueue.nodes && p !in e.ppool.nodes && p !in e.rxQueue.nodes
    ensures p in d.rxQueue.nodes ==> p !in e.ppool.nodes && p !in e.rxQueue.nodes
    ensures p in e.ppool.nodes ==> p !in e.rxQueue.nodes
  {
    assert Open(0);
    OnList(d.ppool, p);
    OnList(d.rxQueue, p);
    OnList(e.ppool, p);
    OnList(e.rxQueue, p);
  }

  lemma {:induction false} OnList(l: PacketList, p: Packet)
    requires l.Valid()
    ensures p in l.nodes ==> p.list == l
  {
    if p in l.nodes {
      var k :| 0 <= k < |l.nodes| && l.nodes[k] == p;
      assert l.nodes[k].list == l;
    }
  }

  /** The four lists in a row. */
  ghost function AllNodes(d: Device, e: Device): seq<Packet>
    reads d.ppool, d.rxQueue, e.ppool, e.rxQueue
  {
    (d.ppool.nodes + e.rxQueue.nodes) + (e.ppool.nodes + d.rxQueue.nodes)
  }

  lemma {:induction false} AllUnique(d: Device, e: Device, ps: set<Packet>)
    requires Valid(d, e, ps)
    ensures Unique(AllNodes(d, e)) && forall p | p in AllNodes(d, e) :: p in ps
  {
    d.PoolUnique();
    e.PoolUnique();
    d.QueueUnique();
    e.QueueUnique();
    forall p | p in d.ppool.nodes + e.rxQueue.nodes ensures p !in e.ppool.nodes + d.rxQueue.nodes {
      ListsDisjoint(d, e, ps, p);
      Symmetric(d, e, ps);
      ListsDisjoint(e, d, ps, p);
    }
    forall p | p in d.ppool.nodes ensures p !in e.rxQueue.nodes { ListsDisjoint(d, e, ps, p); }
    forall p | p in e.ppool.nodes ensures p !in d.rxQueue.nodes {
      ListsDisjoint(d, e, ps, p);
    }
    UniqueConcat(d.ppool.nodes, e.rxQueue.nodes);
    UniqueConcat(e.ppool.nodes, d.rxQueue.nodes);
    UniqueConcat(d.ppool.nodes + e.rxQueue.nodes, e.ppool.nodes + d.rxQueue.nodes);
    InsideIs(d, ps);
    InsideIs(e, ps);
  }

  /** The objects have got where they are by this run from boot. */
  ghost predicate Reached(
    cfg: Config, d: Device, e: Device, ps: set<Packet>, owned0: nat, owned1: nat, steps: seq<Step>)
    reads d, e
  {
    && |ps| == owned0 + owned1
    && Legal(cfg, Init(owned0, owned1), steps) && Run(cfg, Init(owned0, owned1), steps) == Some(View(d, e))
  }

  /**
   * Buffer conservation on the linked lists: on devices reached by any run, each
   * packet allocated is on exactly one of the four lists, exactly once.
   */
  lemma {:induction false} OnExactlyOneList(
    cfg: Config, d: Device, e: Device, ps: set<Packet>, owned0: nat, owned1: nat, steps: seq<Step>, p: Packet)
    requires Valid(d, e, ps) && Reached(cfg, d, e, ps, owned0, owned1, steps)
    ensures Occ(AllNodes(d, e), p) == if p in ps then 1 else 0
  {
    Symmetric(d, e, ps);
    AllUnique(d, e, ps);
    CountNodes(cfg, d, e, ps, owned0, owned1, steps);
    UniqueSize(AllNodes(d, e));
    SameSize((set q | q in AllNodes(d, e)), ps);
    assert p in ps <==> p in (set q | q in AllNodes(d, e));
    UniqueOcc(AllNodes(d, e), p);
  }

  lemma {:induction false} CountNodes(
    cfg: Config, d: Device, e: Device, ps: set<Packet>, owned0: nat, owned1: nat, steps: seq<Step>)
    requires Valid(d, e, ps) && Reached(cfg, d, e, ps, owned0, owned1, steps)
    ensures |AllNodes(d, e)| == |ps|
  {
    Symmetric(d, e, ps);
    d.PoolOf();
    e.PoolOf();
    d.QueueUnique();
    e.QueueUnique();
    BufferConservation(cfg, owned0, owned1, steps, d.id);
    BufferConservation(cfg, owned0, owned1, steps, e.id);
    assert View(d, e).Get(d.id) == d.State() && View(d, e).Get(e.id) == e.State();
  }

  /**
   * Tearing the pool of d down then frees every packet allocated for d if and
   * only if none is in flight on the twin's receive list.
   */
  lemma {:induction false} TeardownIsComplete(
    cfg: Config, d: Device, e: Device, ps: set<Packet>, owned0: nat, owned1: nat, steps: seq<Step>)
    requires Valid(d, e, ps) && Reached(cfg, d, e, ps, owned0, owned1, steps)
    ensures (forall p | p in ps && p.dev == d :: p in d.ppool.nodes) <==> e.rxq == []
  {
    Symmetric(d, e, ps);
    assert Open(0);
    if e.rxq == [] {
      forall p | p in ps && p.dev == d ensures p in d.ppool.nodes {
        OnExactlyOneList(cfg, d, e, ps, owned0, owned1, steps, p);
        AllUnique(d, e, ps);
        UniqueOcc(AllNodes(d, e), p);
        assert p in AllNodes(d, e);
      }
    } else {
      var p := e.rxQueue.nodes[0];
      ListsDisjoint(d, e, ps, p);
      assert p in ps && p.dev == d;
    }
  }

  /**
   * Transmit does not fault where the stack respects the queue: on devices that
   * have got where they are by a run without lockup and watchdog, a queue that is
   * not stopped has a packet to transmit with.
   */
  lemma {:induction false} NeverStarved(
    cfg: Config, d: Device, e: Device, ps: set<Packet>, owned0: nat, owned1: nat, steps: seq<Step>)
    requires Valid(d, e, ps) && owned0 >= 1 && owned1 >= 1 && cfg.lockup == 0 && NoTimeouts(steps)
    requires Legal(cfg, Init(owned0, owned1), steps) && Run(cfg, Init(owned0, owned1), steps) == Some(View(d, e))
    ensures d.stopped <==> d.pool == []
  {
    FlowControl(cfg, owned0, owned1, steps);
    assert View(d, e).Get(d.id) == d.State();
  }
}
