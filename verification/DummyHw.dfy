/**
 * The simulated hardware of the dummy driver and the driver above it: a FIFO of
 * frames, a thread that takes them out one by one and loops them back into the
 * receive callback, and a callback that can come and go meanwhile. A step is one
 * entry into dummy_xmit, one skb_dequeue, one dispatch of the dequeued skb, one
 * lt_request_irq, or the module exit, in any order the kernel allows.
 */
module DummyHw {
  import opened Options
  import opened Bytes
  import opened Ethernet
  import opened Reflector
  import opened Counting

  /** A submitted frame, named by its turn in the submissions. */
  datatype Skb = Skb(ticket: nat, frame: Frame)

  datatype Counters = Counters(rxPackets: nat, rxBytes: nat, txPackets: nat, txBytes: nat) {
    function Plus(c: Counters): Counters {
      Counters(rxPackets + c.rxPackets, rxBytes + c.rxBytes, txPackets + c.txPackets, txBytes + c.txBytes)
    }
  }

  datatype Hw = Hw(
    queue: seq<Skb>,         // skb_tx_q
    hand: Option<Skb>,       // dequeued by the thread, not yet dispatched
    registered: bool,        // dummy_drv_rx is set
    alive: bool,             // the module has not exited
    cpus: seq<Counters>,     // per-CPU statistics
    submitted: seq<Frame>,   // what dummy_xmit was given, oldest first
    delivered: seq<Skb>,     // what netif_rx was given, with the ticket it was submitted under
    freed: seq<Skb>)

  function Init(ncpus: nat): Hw {
    Hw([], None, false, true, seq(ncpus, _ => Counters(0, 0, 0, 0)), [], [], [])
  }

  function Count(h: Hw, cpu: nat, c: Counters): Hw
    requires cpu < |h.cpus|
  {
    h.(cpus := h.cpus[cpu := h.cpus[cpu].Plus(c)])
  }

  /** dummy_xmit and lt_hw_tx */
  function Submit(h: Hw, cpu: nat, f: Frame): Hw
    requires cpu < |h.cpus|
  {
    Count(h, cpu, Counters(0, 0, 1, |f|))
      .(queue := h.queue + [Skb(|h.submitted|, f)], submitted := h.submitted + [f])
  }

  /** The first half of dummy_hw_send_irq: nothing to do on an empty queue. */
  function Dequeue(h: Hw): Hw {
    if h.queue == [] then h else h.(queue := h.queue[1..], hand := Some(h.queue[0]))
  }

  /** The second half: freed without a callback, otherwise reflected or freed by it. */
  ghost function Dispatch(h: Hw, cpu: nat): Hw
    requires cpu < |h.cpus| && h.hand.Some? && Reflectable(h.hand.value.frame)
  {
    var skb := h.hand.value;
    var r := Reflect(skb.frame);
    if h.registered && r.Some? then
      Count(h, cpu, Counters(1, |skb.frame|, 0, 0))
        .(hand := None, delivered := h.delivered + [Skb(skb.ticket, r.value)])
    else
      h.(hand := None, freed := h.freed + [skb])
  }

  /** lt_request_irq: deregistering frees everything still queued. */
  function RequestIrq(h: Hw, mode: bool): Hw {
    if mode && !h.registered then h.(registered := true)
    else if !mode && h.registered then h.(registered := false, queue := [], freed := h.freed + h.queue)
    else h
  }

  /** dummy_hw_exit: the thread has stopped; what is left is freed. */
  function Exit(h: Hw): Hw { h.(alive := false, queue := [], freed := h.freed + h.queue) }

  // ------------------------------------------------------------------ runs

  datatype Step =
    | SubmitStep(cpu: nat, frame: Frame)
    | DequeueStep
    | DispatchStep(cpu: nat)
    | RequestStep(mode: bool)
    | ExitStep

  ghost predicate Enabled(h: Hw, s: Step) {
    match s
    case SubmitStep(cpu, f) => h.alive && cpu < |h.cpus| && Reflectable(f)
    case DequeueStep => h.alive && h.hand.None?
    case DispatchStep(cpu) => h.hand.Some? && cpu < |h.cpus| && Reflectable(h.hand.value.frame)
    case RequestStep(_) => h.alive
    case ExitStep => h.alive && h.hand.None?
  }

  ghost function Apply(h: Hw, s: Step): Hw
    requires Enabled(h, s)
  {
    match s
    case SubmitStep(cpu, f) => Submit(h, cpu, f)
    case DequeueStep => Dequeue(h)
    case DispatchStep(cpu) => Dispatch(h, cpu)
    case RequestStep(mode) => RequestIrq(h, mode)
    case ExitStep => Exit(h)
  }

  ghost predicate Legal(h: Hw, steps: seq<Step>)
    decreases |steps|
  {
    steps != [] ==> Enabled(h, steps[0]) && Legal(Apply(h, steps[0]), steps[1..])
  }

  ghost function Run(h: Hw, steps: seq<Step>): Hw
    requires Legal(h, steps)
    decreases |steps|
  {
    if steps == [] then h else Run(Apply(h, steps[0]), steps[1..])
  }

  // ------------------------------------------------------------- invariants

  function Tickets(s: seq<Skb>): seq<nat> { seq(|s|, k requires 0 <= k < |s| => s[k].ticket) }

  function FramesOf(s: seq<Skb>): seq<Frame> { seq(|s|, k requires 0 <= k < |s| => s[k].frame) }

  function InHand(h: Hw): seq<Skb> { if h.hand.Some? then [h.hand.value] else [] }

  /** How often ticket t occurs among everything the driver knows of. */
  function Places(h: Hw, t: nat): nat {
    Occ(Tickets(h.queue), t) + Occ(Tickets(InHand(h)), t) + Occ(Tickets(h.delivered), t) + Occ(Tickets(h.freed), t)
  }

  /** Ticket t is queued, in hand, delivered or freed, exactly once, if it was handed out at all. */
  predicate Accounted(h: Hw, t: nat) { Places(h, t) == if t < |h.submitted| then 1 else 0 }

  /** The first ticket still queued. */
  function Boundary(h: Hw): int { |h.submitted| - |h.queue| }

  predicate Genuine(h: Hw, skb: Skb) {
    skb.ticket < |h.submitted| && h.submitted[skb.ticket] == skb.frame
  }

  /** A delivered frame is the reflection of the frame submitted under its ticket. */
  ghost predicate Reflected(h: Hw, skb: Skb) {
    && skb.ticket < |h.submitted|
    && Reflectable(h.submitted[skb.ticket])
    && Reflect(h.submitted[skb.ticket]) == Some(skb.frame)
  }

  predicate Increasing(s: seq<Skb>) { forall a, b | 0 <= a < b < |s| :: s[a].ticket < s[b].ticket }

  /** The queue is the end of the submissions; what was delivered comes before it, in order. */
  ghost predicate InOrder(h: Hw) {
    && |h.queue| <= |h.submitted| && (!h.alive ==> h.queue == [] && h.hand == None)
    && (forall k | 0 <= k < |h.queue| :: h.queue[k] == Skb(Boundary(h) + k, h.submitted[Boundary(h) + k]))
    && (h.hand.Some? ==> h.hand.value.ticket < Boundary(h) && Genuine(h, h.hand.value))
    && Increasing(h.delivered)
    && (forall x | x in h.delivered :: Reflected(h, x))
    && (forall x | x in h.delivered :: x.ticket < if h.hand.Some? then h.hand.value.ticket else Boundary(h))
  }

  ghost predicate AllReflectable(h: Hw) { forall f | f in h.submitted :: Reflectable(f) }

  lemma {:induction false} TicketsConcat(a: seq<Skb>, b: seq<Skb>, t: nat)
    ensures Tickets(a + b) == Tickets(a) + Tickets(b)
    ensures Occ(Tickets(a + b), t) == Occ(Tickets(a), t) + Occ(Tickets(b), t)
  {
    assert Tickets(a + b) == Tickets(a) + Tickets(b);
    OccConcat(Tickets(a), Tickets(b), t);
  }

  lemma {:induction false} DequeueAccounts(h: Hw, t: nat)
    requires Accounted(h, t) && h.hand.None?
    ensures Accounted(Dequeue(h), t)
  {
    if h.queue != [] {
      assert h.queue == [h.queue[0]] + h.queue[1..];
      TicketsConcat([h.queue[0]], h.queue[1..], t);
    }
  }

  lemma {:induction false} DispatchAccounts(h: Hw, cpu: nat, t: nat)
    requires Accounted(h, t) && Enabled(h, DispatchStep(cpu))
    ensures Accounted(Dispatch(h, cpu), t)
  {
    var skb, r := h.hand.value, Reflect(h.hand.value.frame);
    TicketsConcat(h.freed, [skb], t);
    if r.Some? {
      TicketsConcat(h.delivered, [Skb(skb.ticket, r.value)], t);
      assert Tickets([Skb(skb.ticket, r.value)]) == Tickets([skb]);
    }
  }

  lemma {:induction false} StepAccounts(h: Hw, s: Step, t: nat)
    requires Accounted(h, t) && Enabled(h, s)
    ensures Accounted(Apply(h, s), t)
  {
    match s
    case SubmitStep(cpu, f) =>
      TicketsConcat(h.queue, [Skb(|h.submitted|, f)], t);
    case DequeueStep => DequeueAccounts(h, t);
    case DispatchStep(cpu) => DispatchAccounts(h, cpu, t);
    case RequestStep(mode) => TicketsConcat(h.freed, h.queue, t);
    case ExitStep => TicketsConcat(h.freed, h.queue, t);
  }

  lemma {:induction false} SubmitInOrder(h: Hw, cpu: nat, f: Frame)
    requires InOrder(h) && Enabled(h, SubmitStep(cpu, f))
    ensures InOrder(Submit(h, cpu, f))
  {
    var m := Submit(h, cpu, f);
    assert Boundary(m) == Boundary(h);
    assert forall k | 0 <= k < |h.submitted| :: m.submitted[k] == h.submitted[k];
  }

  lemma {:induction false} DequeueInOrder(h: Hw)
    requires InOrder(h) && h.alive && h.hand.None?
    ensures InOrder(Dequeue(h))
  {
    if h.queue != [] {
      var m := Dequeue(h);
      assert Boundary(m) == Boundary(h) + 1;
      assert h.queue[0] == Skb(Boundary(h), h.submitted[Boundary(h)]);
      forall k | 0 <= k < |m.queue| ensures m.queue[k] == Skb(Boundary(m) + k, m.submitted[Boundary(m) + k]) {
        assert m.queue[k] == h.queue[k + 1];
      }
    }
  }

  lemma {:induction false} DispatchInOrder(h: Hw, cpu: nat)
    requires InOrder(h) && Enabled(h, DispatchStep(cpu))
    ensures InOrder(Dispatch(h, cpu))
  {
    var skb, m := h.hand.value, Dispatch(h, cpu);
    assert Genuine(h, skb) && m.submitted == h.submitted && m.queue == h.queue;
    forall x | x in m.delivered ensures Reflected(m, x) && x.ticket < Boundary(m) {
      if x in h.delivered { assert Reflected(h, x); }
    }
  }

  lemma {:induction false} StepInOrder(h: Hw, s: Step)
    requires InOrder(h) && Enabled(h, s)
    ensures InOrder(Apply(h, s))
  {
    match s
    case SubmitStep(cpu, f) => SubmitInOrder(h, cpu, f);
    case DequeueStep => DequeueInOrder(h);
    case DispatchStep(cpu) => DispatchInOrder(h, cpu);
    case RequestStep(mode) =>
    case ExitStep =>
  }

  lemma {:induction false} RunAccounts(h: Hw, steps: seq<Step>, t: nat)
    requires Accounted(h, t) && InOrder(h) && Legal(h, steps)
    ensures Accounted(Run(h, steps), t) && InOrder(Run(h, steps))
    decreases |steps|
  {
    if steps != [] {
      StepAccounts(h, steps[0], t);
      StepInOrder(h, steps[0]);
      RunAccounts(Apply(h, steps[0]), steps[1..], t);
    }
  }

  /**
   * Handoff conservation: in every reachable state each submitted frame is in
   * exactly one of queued, in hand, delivered, freed; the frames delivered are
   * reflections of submitted ones, in submission order.
   */
  lemma {:induction false} Handoff(ncpus: nat, steps: seq<Step>, t: nat)
    requires Legal(Init(ncpus), steps)
    ensures var h := Run(Init(ncpus), steps);
            Accounted(h, t) && Increasing(h.delivered) && forall x | x in h.delivered :: Reflected(h, x)
  {
    RunAccounts(Init(ncpus), steps, t);
  }

  /** After the module exit nothing is left over: each submitted frame was delivered or freed, once. */
  lemma {:induction false} NothingLeft(ncpus: nat, steps: seq<Step>, t: nat)
    requires Legal(Init(ncpus), steps) && !Run(Init(ncpus), steps).alive
    ensures var h := Run(Init(ncpus), steps);
            && h.queue == [] && h.hand == None
            && Occ(Tickets(h.delivered), t) + Occ(Tickets(h.freed), t) == if t < |h.submitted| then 1 else 0
  {
    RunAccounts(Init(ncpus), steps, t);
  }

  // ------------------------------------------------- while it is registered

  /** The reflections of the accepted frames among fs, in order. */
  ghost function Reflections(fs: seq<Frame>): seq<Frame>
    requires forall f | f in fs :: Reflectable(f)
  {
    if fs == [] then []
    else
      var last := fs[|fs| - 1];
      Reflections(fs[..|fs| - 1]) + if Reflect(last).Some? then [Reflect(last).value] else []
  }

  /** The submissions the thread is done with. */
  function Done(h: Hw): seq<Frame>
    requires |h.queue| + |InHand(h)| <= |h.submitted|
  {
    h.submitted[..|h.submitted| - |h.queue| - |InHand(h)|]
  }

  /** Registered throughout: what is done or in hand comes right before the queue, and nothing accepted is missing. */
  ghost predicate Exact(h: Hw) {
    && InOrder(h) && AllReflectable(h) && h.registered
    && (h.hand.Some? ==> h.hand.value.ticket == Boundary(h) - 1)
    && FramesOf(h.delivered) == Reflections(Done(h))
  }

  ghost predicate NoDeregistration(steps: seq<Step>) { RequestStep(false) !in steps && ExitStep !in steps }

  lemma {:induction false} DispatchExact(h: Hw, cpu: nat)
    requires Exact(h) && Enabled(h, DispatchStep(cpu))
    ensures Exact(Dispatch(h, cpu))
  {
    var skb, m := h.hand.value, Dispatch(h, cpu);
    DispatchInOrder(h, cpu);
    assert Done(m) == Done(h) + [skb.frame];
    assert Done(m)[..|Done(m)| - 1] == Done(h);
    if Reflect(skb.frame).Some? {
      assert FramesOf(m.delivered) == FramesOf(h.delivered) + [Reflect(skb.frame).value];
    }
  }

  lemma {:induction false} StepExact(h: Hw, s: Step)
    requires Exact(h) && Enabled(h, s) && s != RequestStep(false) && s != ExitStep
    ensures Exact(Apply(h, s))
  {
    StepInOrder(h, s);
    match s
    case SubmitStep(cpu, f) => assert Done(Submit(h, cpu, f)) == Done(h);
    case DequeueStep => assert Done(Dequeue(h)) == Done(h);
    case DispatchStep(cpu) => DispatchExact(h, cpu);
    case RequestStep(mode) =>
  }

  /** While the callback stays registered, the stack receives exactly the reflections of the accepted frames, FIFO. */
  lemma {:induction false} RegisteredIsFifo(h: Hw, steps: seq<Step>)
    requires Exact(h) && Legal(h, steps) && NoDeregistration(steps)
    ensures Exact(Run(h, steps))
    decreases |steps|
  {
    if steps != [] {
      assert steps[0] in steps;
      StepExact(h, steps[0]);
      RegisteredIsFifo(Apply(h, steps[0]), steps[1..]);
    }
  }

  /** Loading the driver registers the callback before any frame is submitted. */
  lemma {:induction false} RegisteredAtLoad(ncpus: nat)
    ensures Exact(RequestIrq(Init(ncpus), true))
  {
    assert Done(RequestIrq(Init(ncpus), true)) == [];
  }
}
