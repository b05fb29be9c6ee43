/**
 * The two snull devices as a state machine. One step is a whole snull_tx, a
 * whole snull_poll or a whole snull_tx_timeout, interrupts included. Allocation
 * results are inputs of the steps. Lists are kept in the driver's own order:
 * index 0 is the head.
 */
module SnullModel {
  import opened Options
  import opened Bytes
  import opened Ethernet
  import opened SnullFrame

  /** A position in snull_devs; the twin of device i is device !i. */
  type Id = bool

  /** A packet buffer, named by the device it was allocated for and its turn in that allocation. */
  datatype Pkt = Pkt(dev: Id, serial: nat)

  /** A buffer in flight with the octets it holds. */
  datatype Cell = Cell(pkt: Pkt, frame: Frame)

  datatype Stats = Stats(
    rxPackets: nat, rxBytes: nat, rxDropped: nat,
    txPackets: nat, txBytes: nat, txErrors: nat)

  datatype Sent = Sent(skb: nat, frame: Frame)

  /** What the kernel around the driver has seen: skbs submitted and freed, frames received and lost. */
  datatype Log = Log(sent: seq<Sent>, freed: seq<nat>, up: seq<Frame>, dropped: seq<Frame>)

  datatype Dev = Dev(
    pool: seq<Pkt>,
    rxq: seq<Cell>,
    rxInt: bool,         // rx_int_enabled
    scheduled: bool,     // a NAPI poll is scheduled
    stopped: bool,       // the transmit queue is stopped
    rxIntr: bool,        // SNULL_RX_INTR in the status word
    txIntr: bool,        // SNULL_TX_INTR in the status word
    txLen: nat,
    skb: Option<nat>,
    stats: Stats,
    log: Log)

  datatype Net = Net(d0: Dev, d1: Dev) {
    function Get(i: Id): Dev { if i then d1 else d0 }

    function Set(i: Id, d: Dev): Net { if i then this.(d1 := d) else this.(d0 := d) }
  }

  datatype Config = Config(napi: bool, lockup: nat)

  // --------------------------------------------------- buffers and receive

  function InitDev(i: Id, owned: nat): Dev {
    Dev(seq(owned, k requires 0 <= k < owned => Pkt(i, owned - 1 - k)), [], true, false, false,
        false, false, 0, None, Stats(0, 0, 0, 0, 0, 0), Log([], [], [], []))
  }

  function Init(owned0: nat, owned1: nat): Net {
    Net(InitDev(false, owned0), InitDev(true, owned1))
  }

  function TakeBuffer(d: Dev): Dev
    requires d.pool != []
  {
    d.(pool := d.pool[1..], stopped := d.stopped || |d.pool| == 1)
  }

  /** Back to the pool of the packet's own device; a pool that was empty wakes a stopped queue. */
  function GiveBack(d: Dev, p: Pkt): Dev {
    d.(pool := [p] + d.pool, stopped := d.stopped && d.pool != [])
  }

  function Release(n: Net, p: Pkt): Net {
    n.Set(p.dev, GiveBack(n.Get(p.dev), p))
  }

  function Enqueue(d: Dev, c: Cell): Dev {
    d.(rxq := [c] + d.rxq)
  }

  /** Hand a frame to the stack, or drop it when no skb can be allocated. */
  function Receive(d: Dev, f: Frame, ok: bool): Dev {
    if ok then
      d.(stats := d.stats.(rxPackets := d.stats.rxPackets + 1, rxBytes := d.stats.rxBytes + |f|),
         log := d.log.(up := d.log.up + [f]))
    else
      d.(stats := d.stats.(rxDropped := d.stats.rxDropped + 1),
         log := d.log.(dropped := d.log.dropped + [f]))
  }

  /** Take the head of the receive queue, pass it up or drop it, and give its buffer back. */
  function ReceiveHead(n: Net, i: Id, ok: bool): (r: Net)
    requires n.Get(i).rxq != []
    ensures r.Get(i).rxq == n.Get(i).rxq[1..]
  {
    var d := n.Get(i);
    Release(n.Set(i, Receive(d.(rxq := d.rxq[1..]), d.rxq[0].frame, ok)), d.rxq[0].pkt)
  }

  /** A transmission is over: count it and free the remembered skb (freeing NULL does nothing). */
  function CompleteTx(d: Dev): Dev {
    d.(stats := d.stats.(txPackets := d.stats.txPackets + 1, txBytes := d.stats.txBytes + d.txLen),
       log := d.log.(freed := d.log.freed + (if d.skb.Some? then [d.skb.value] else [])))
  }

  // ------------------------------------------------------------ interrupts

  /** Both handlers read the status word, clear it, and complete a transmission if told so. */
  function AckTx(d: Dev): Dev {
    var d' := d.(rxIntr := false, txIntr := false);
    if d.txIntr then CompleteTx(d') else d'
  }

  /** Receive the head of the queue, if told so, then acknowledge. */
  function RegularInterrupt(n: Net, i: Id, ok: bool): Net {
    var m := if n.Get(i).rxIntr && n.Get(i).rxq != [] then ReceiveHead(n, i, ok) else n;
    m.Set(i, AckTx(m.Get(i)))
  }

  function NapiInterrupt(n: Net, i: Id): Net {
    var d := n.Get(i);
    n.Set(i, AckTx(if d.rxIntr then d.(rxInt := false, scheduled := true) else d))
  }

  function Interrupt(cfg: Config, n: Net, i: Id, ok: bool): Net {
    if cfg.napi then NapiInterrupt(n, i) else RegularInterrupt(n, i, ok)
  }

  // ----------------------------------------------------------------- steps

  /** Put the frame on the twin's queue and raise its receive interrupt if that is enabled. */
  function Deliver(cfg: Config, n: Net, i: Id, f: Frame, ok: bool): Net
    requires n.Get(i).pool != []
  {
    var taken := n.Set(i, TakeBuffer(n.Get(i)));
    var queued := taken.Set(!i, Enqueue(taken.Get(!i), Cell(n.Get(i).pool[0], f)));
    if queued.Get(!i).rxInt then
      Interrupt(cfg, queued.Set(!i, queued.Get(!i).(rxIntr := true)), !i, ok)
    else
      queued
  }

  /** Raise the transmit-done interrupt, or simulate losing it every lockup-th time. */
  function FinishTx(cfg: Config, n: Net, i: Id, len: nat, ok: bool): Net {
    var d := n.Get(i).(txLen := len, txIntr := true);
    if cfg.lockup > 0 && (d.stats.txPackets + 1) % cfg.lockup == 0 then
      n.Set(i, d.(stopped := true))
    else
      Interrupt(cfg, n.Set(i, d), i, ok)
  }

  /** The skb and the octets that will travel for it are remembered. */
  function Record(d: Dev, x: Sent): Dev {
    d.(skb := Some(x.skb), log := d.log.(sent := d.log.sent + [x]))
  }

  /** snull_tx; None stands for the NULL dereference on an empty pool. */
  ghost function Tx(cfg: Config, n: Net, i: Id, skb: nat, f: Frame, ok: bool): Option<Net>
    requires Sendable(f)
  {
    if n.Get(i).pool == [] then None
    else
      var x := Sent(skb, Wire(f));
      Some(FinishTx(cfg, Deliver(cfg, n.Set(i, Record(n.Get(i), x)), i, x.frame, ok), i, |x.frame|, ok))
  }

  /** The poll loop; done counts deliveries, k allocation attempts. */
  function PollLoop(n: Net, i: Id, budget: nat, ok: nat -> bool, done: nat, k: nat): (Net, nat)
    decreases |n.Get(i).rxq|
  {
    if done < budget && n.Get(i).rxq != [] then
      PollLoop(ReceiveHead(n, i, ok(k)), i, budget, ok, if ok(k) then done + 1 else done, k + 1)
    else
      (n, done)
  }

  function Poll(n: Net, i: Id, budget: nat, ok: nat -> bool): (Net, nat) {
    var (m, done) := PollLoop(n, i, budget, ok, 0, 0);
    if done < budget then
      (m.Set(i, m.Get(i).(scheduled := false, rxInt := true)), done)
    else
      (m, done)
  }

  /** snull_tx_timeout: fake a transmit interrupt, count an error, wake the queue. */
  function Timeout(cfg: Config, n: Net, i: Id): Net {
    var n1 := Interrupt(cfg, n.Set(i, n.Get(i).(rxIntr := false, txIntr := true)), i, true);
    var d := n1.Get(i);
    n1.Set(i, d.(stats := d.stats.(txErrors := d.stats.txErrors + 1), stopped := false))
  }

  // ------------------------------------------------------------------ runs

  datatype Step =
    | TxStep(i: Id, skb: nat, frame: Frame, ok: bool)
    | PollStep(i: Id, budget: nat, oks: nat -> bool)
    | TimeoutStep(i: Id)

  /** What the kernel respects: it transmits only on a running queue and polls only when scheduled. */
  ghost predicate Enabled(cfg: Config, n: Net, s: Step) {
    match s
    case TxStep(i, _, f, _) => !n.Get(i).stopped && Sendable(f)
    case PollStep(i, _, _) => cfg.napi && n.Get(i).scheduled
    case TimeoutStep(_) => true
  }

  ghost function Apply(cfg: Config, n: Net, s: Step): Option<Net>
    requires Enabled(cfg, n, s)
  {
    match s
    case TxStep(i, skb, f, ok) => Tx(cfg, n, i, skb, f, ok)
    case PollStep(i, budget, oks) => Some(Poll(n, i, budget, oks).0)
    case TimeoutStep(i) => Some(Timeout(cfg, n, i))
  }

  /** Every step is taken in a state that enables it (up to a crash, if there is one). */
  ghost predicate Legal(cfg: Config, n: Net, steps: seq<Step>)
    decreases |steps|
  {
    steps != [] ==>
      && Enabled(cfg, n, steps[0])
      && (Apply(cfg, n, steps[0]).Some? ==> Legal(cfg, Apply(cfg, n, steps[0]).value, steps[1..]))
  }

  ghost function Run(cfg: Config, n: Net, steps: seq<Step>): Option<Net>
    requires Legal(cfg, n, steps)
    decreases |steps|
  {
    if steps == [] then Some(n)
    else
      var next := Apply(cfg, n, steps[0]);
      if next.None? then None else Run(cfg, next.value, steps[1..])
  }
}
