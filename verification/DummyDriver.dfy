/**
 * The dummy driver and its hardware as they are written, with the shared queue,
 * the callback and the counters updated in place; each entry point is proved
 * against the steps of DummyHw.
 */
module DummyDriver {
  import opened Options
  import opened Bytes
  import opened Ethernet
  import opened Reflector
  import opened DummyHw
  import opened DummyStats

  /** n turns of the draining loop on one CPU. */
  function Turns(cpu: nat, n: nat): seq<Step> {
    if n == 0 then [] else [DequeueStep, DispatchStep(cpu)] + Turns(cpu, n - 1)
  }

  ghost predicate Drainable(h: Hw, cpu: nat) {
    && h.alive && h.hand.None? && cpu < |h.cpus|
    && (forall x | x in h.queue :: Reflectable(x.frame))
  }

  ghost function Turn(h: Hw, cpu: nat): Hw
    requires Drainable(h, cpu) && h.queue != []
  {
    Dispatch(Dequeue(h), cpu)
  }

  /** A turn takes one frame off the queue and is two steps of a run. */
  lemma {:induction false} TurnIsRun(h: Hw, cpu: nat, rest: seq<Step>)
    requires Drainable(h, cpu) && h.queue != [] && Legal(Turn(h, cpu), rest)
    ensures Drainable(Turn(h, cpu), cpu) && Turn(h, cpu).queue == h.queue[1..]
    ensures Legal(h, [DequeueStep, DispatchStep(cpu)] + rest)
    ensures Run(h, [DequeueStep, DispatchStep(cpu)] + rest) == Run(Turn(h, cpu), rest)
  {
    var steps := [DequeueStep, DispatchStep(cpu)] + rest;
    var later := [DispatchStep(cpu)] + rest;
    assert steps[1..] == later && later[1..] == rest;
    assert Legal(Dequeue(h), later);
  }

  lemma {:induction false} TurnDrains(h: Hw, cpu: nat)
    requires Drainable(h, cpu) && h.queue != []
    ensures Drainable(Turn(h, cpu), cpu) && Turn(h, cpu).queue == h.queue[1..]
  {
    TurnIsRun(h, cpu, []);
  }

  lemma {:induction false} TurnsLegal(h: Hw, cpu: nat)
    requires Drainable(h, cpu)
    ensures Legal(h, Turns(cpu, |h.queue|))
    ensures h.queue != [] ==>
              Drainable(Turn(h, cpu), cpu) && Legal(Turn(h, cpu), Turns(cpu, |h.queue| - 1))
              && Run(h, Turns(cpu, |h.queue|)) == Run(Turn(h, cpu), Turns(cpu, |h.queue| - 1))
    decreases |h.queue|
  {
    if h.queue != [] {
      TurnDrains(h, cpu);
      TurnsLegal(Turn(h, cpu), cpu);
      TurnIsRun(h, cpu, Turns(cpu, |h.queue| - 1));
    }
  }

  class Driver {
    var txq: seq<Skb>
    var rxRegistered: bool
    var dstats: seq<Counters>
    ghost var submitted: seq<Frame>
    ghost var delivered: seq<Skb>
    ghost var freed: seq<Skb>
    ghost var alive: bool

    /** The state of the model while the thread holds no frame. */
    ghost function State(): Hw
      reads this
    {
      Hw(txq, None, rxRegistered, alive, dstats, submitted, delivered, freed)
    }

    constructor (ncpus: nat)
      ensures State() == Init(ncpus)
    {
      txq, rxRegistered, dstats := [], false, seq(ncpus, _ => Counters(0, 0, 0, 0));
      submitted, delivered, freed, alive := [], [], [], true;
    }

    /** dummy_xmit; the ticket stands for the identity of the skb. */
    method Xmit(cpu: nat, data: array<byte>, ticket: nat)
      requires alive && cpu < |dstats| && ticket == |submitted|
      modifies this
      ensures State() == Submit(old(State()), cpu, data[..])
    {
      dstats := dstats[cpu := dstats[cpu].Plus(Counters(0, 0, 1, data.Length))];
      txq := txq + [Skb(ticket, data[..])];
      submitted := submitted + [data[..]];
    }

    /** lt_request_irq */
    method Request(mode: bool)
      modifies this
      ensures State() == RequestIrq(old(State()), mode)
    {
      if mode && !rxRegistered {
        rxRegistered := true;
      } else if !mode && rxRegistered {
        rxRegistered := false;
        freed := freed + txq;
        txq := [];
      }
    }

    /** dummy_hw_send_irq */
    method SendIrq(cpu: nat)
      requires Drainable(State(), cpu)
      modifies this
      ensures if old(txq) == [] then State() == old(State()) else State() == Turn(old(State()), cpu)
    {
      if txq == [] {
        return;
      }
      var skb := txq[0];
      txq := txq[1..];
      if !rxRegistered {
        freed := freed + [skb];
        return;
      }
      var buf := new byte[|skb.frame|](k requires 0 <= k < |skb.frame| => skb.frame[k]);
      assert buf[..] == skb.frame;
      var ok := EthRx(buf);
      if ok {
        dstats := dstats[cpu := dstats[cpu].Plus(Counters(1, buf.Length, 0, 0))];
        delivered := delivered + [Skb(skb.ticket, buf[..])];
      } else {
        freed := freed + [skb];
      }
    }

    /** The inner loop of dummy_hw_thread, when nothing is submitted meanwhile. */
    method Drain(cpu: nat)
      requires Drainable(State(), cpu)
      modifies this
      ensures Legal(old(State()), Turns(cpu, |old(txq)|)) && State() == Run(old(State()), Turns(cpu, |old(txq)|))
      ensures txq == []
    {
      ghost var h := State();
      TurnsLegal(h, cpu);
      while txq != []
        invariant Drainable(State(), cpu) && Legal(State(), Turns(cpu, |txq|))
        invariant Run(State(), Turns(cpu, |txq|)) == Run(h, Turns(cpu, |h.queue|))
        decreases |txq|
      {
        TurnsLegal(State(), cpu);
        TurnDrains(State(), cpu);
        SendIrq(cpu);
      }
    }

    /** dummy_hw_exit */
    method ModuleExit()
      requires alive
      modifies this
      ensures State() == Exit(old(State()))
    {
      freed := freed + txq;
      txq := [];
      alive := false;
    }

    /** dummy_get_stats64, into a zeroed structure */
    method GetStats() returns (s: Counters)
      ensures s == Sum(dstats)
    {
      s := Counters(0, 0, 0, 0);
      var i := 0;
      while i < |dstats|
        invariant i <= |dstats| && s.Plus(Sum(dstats[i..])) == Sum(dstats)
      {
        s := s.Plus(dstats[i]);
        assert dstats[i..][1..] == dstats[i + 1..];
        i := i + 1;
      }
    }
  }
}
