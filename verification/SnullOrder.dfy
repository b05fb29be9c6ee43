/** In which order frames arrive: FIFO in regular mode, last-in first-out per poll in NAPI mode. */
module SnullOrder {
  import opened Options
  import opened Bytes
  import opened Ethernet
  import opened SnullFrame
  import opened SnullModel
  import opened Counting
  import opened SnullConservation
  import opened SnullFlow

  predicate AllOwners(n: Net) { Owners(n.d0, n.d1, false) && Owners(n.d1, n.d0, true) }

  // ------------------------------------------------------- regular mode

  /**
   * A regular-mode delivery is synchronous: the sender ends with the device it
   * started with, buffer returned and queue running, and the twin has received
   * exactly this frame.
   */
  lemma {:induction false} RegularDeliver(cfg: Config, n: Net, i: Id, f: Frame, ok: bool)
    requires !cfg.napi && AllAttended(cfg, n) && AllOwners(n)
    requires n.Get(i).pool != [] && !n.Get(i).stopped
    ensures Deliver(cfg, n, i, f, ok) == n.Set(!i, AckTx(Receive(n.Get(!i), f, ok)))
  {
    var d, e := n.Get(i), n.Get(!i);
    assert [d.pool[0]] + d.pool[1..] == d.pool;
    assert ([Cell(d.pool[0], f)] + e.rxq)[1..] == e.rxq;
  }

  /** What a step sends from device i, if its receive allocation goes as told. */
  ghost function Arrival(s: Step, i: Id, ok: bool): seq<Frame> {
    if s.TxStep? && s.i == i && s.ok == ok && Sendable(s.frame) then [Wire(s.frame)] else []
  }

  ghost function Arrivals(steps: seq<Step>, i: Id, ok: bool): seq<Frame> {
    if steps == [] then [] else Arrival(steps[0], i, ok) + Arrivals(steps[1..], i, ok)
  }

  lemma {:induction false} EmptyConcat<T>(s: seq<T>)
    ensures [] + s == s
  {
  }

  lemma {:induction false} RegularTx(cfg: Config, n: Net, i: Id, skb: nat, f: Frame, ok: bool)
    requires !cfg.napi && AllAttended(cfg, n) && AllOwners(n)
    requires Sendable(f) && n.Get(i).pool != [] && !n.Get(i).stopped
    ensures var m := Tx(cfg, n, i, skb, f, ok).value;
            && m.Get(i).log.up == n.Get(i).log.up && m.Get(i).log.dropped == n.Get(i).log.dropped
            && m.Get(!i).log.up == n.Get(!i).log.up + (if ok then [Wire(f)] else [])
            && m.Get(!i).log.dropped == n.Get(!i).log.dropped + (if ok then [] else [Wire(f)])
  {
    RegularDeliver(cfg, n.Set(i, Record(n.Get(i), Sent(skb, Wire(f)))), i, Wire(f), ok);
  }

  lemma {:induction false} RegularStep(cfg: Config, n: Net, s: Step, i: Id)
    requires !cfg.napi && AllAttended(cfg, n) && AllOwners(n) && Enabled(cfg, n, s) && Apply(cfg, n, s).Some?
    ensures var m := Apply(cfg, n, s).value;
            && m.Get(!i).log.up == n.Get(!i).log.up + Arrival(s, i, true)
            && m.Get(!i).log.dropped == n.Get(!i).log.dropped + Arrival(s, i, false)
  {
    if s.TxStep? {
      RegularTx(cfg, n, s.i, s.skb, s.frame, s.ok);
    }
  }

  lemma {:induction false} RegularRun(cfg: Config, n: Net, steps: seq<Step>, i: Id, w: Probe)
    requires !cfg.napi && AllAttended(cfg, n) && Inv(n, w)
    requires Legal(cfg, n, steps) && Run(cfg, n, steps).Some?
    ensures var m := Run(cfg, n, steps).value;
            && m.Get(!i).log.up == n.Get(!i).log.up + Arrivals(steps, i, true)
            && m.Get(!i).log.dropped == n.Get(!i).log.dropped + Arrivals(steps, i, false)
    decreases |steps|
  {
    if steps != [] {
      var s := steps[0];
      var m := Apply(cfg, n, s).value;
      RegularStep(cfg, n, s, i);
      StepAttended(cfg, n, s);
      StepKeepsInv(cfg, n, s, w);
      RegularRun(cfg, m, steps[1..], i, w);
      Assoc(n.Get(!i).log.up, Arrival(s, i, true), Arrivals(steps[1..], i, true));
      Assoc(n.Get(!i).log.dropped, Arrival(s, i, false), Arrivals(steps[1..], i, false));
    }
  }

  /**
   * Order refinement: in regular mode, whatever the lockup setting and the
   * watchdog, what a device hands to its stack is exactly the sequence of padded
   * and rewritten frames its twin sent, in order, minus allocation failures; and
   * no frame waits between steps.
   */
  lemma {:induction false} RegularIsFifo(cfg: Config, owned0: nat, owned1: nat, steps: seq<Step>, i: Id)
    requires !cfg.napi && Legal(cfg, Init(owned0, owned1), steps) && Run(cfg, Init(owned0, owned1), steps).Some?
    ensures var r := Run(cfg, Init(owned0, owned1), steps).value.Get(!i);
            r.log.up == Arrivals(steps, i, true) && r.log.dropped == Arrivals(steps, i, false) && r.rxq == []
  {
    var w := Probe(owned0, owned1, Pkt(false, 0), []);
    InitInv(w);
    RegularRun(cfg, Init(owned0, owned1), steps, i, w);
    EmptyConcat(Arrivals(steps, i, true));
    EmptyConcat(Arrivals(steps, i, false));
    NoStrandedPacket(cfg, owned0, owned1, steps);
  }

  // ---------------------------------------------------------- NAPI mode

  function Reverse<T>(s: seq<T>): seq<T> {
    if s == [] then [] else Reverse(s[1..]) + [s[0]]
  }

  lemma {:induction false} ReverseCons<T>(x: T, s: seq<T>)
    ensures Reverse([x] + s) == Reverse(s) + [x]
  {
    assert ([x] + s)[1..] == s;
  }

  ghost predicate Burst(steps: seq<Step>, i: Id) {
    forall s | s in steps :: s.TxStep? && s.i == i && Sendable(s.frame)
  }

  ghost function Wires(steps: seq<Step>): seq<Frame>
    requires forall s | s in steps :: s.TxStep? && Sendable(s.frame)
  {
    if steps == [] then [] else [Wire(steps[0].frame)] + Wires(steps[1..])
  }

  lemma {:induction false} NapiTx(cfg: Config, n: Net, i: Id, skb: nat, f: Frame, ok: bool)
    requires cfg.napi && Sendable(f) && n.Get(i).pool != []
    ensures var m := Tx(cfg, n, i, skb, f, ok).value.Get(!i);
            && Frames(m.rxq) == [Wire(f)] + Frames(n.Get(!i).rxq)
            && m.log.up == n.Get(!i).log.up && m.log.dropped == n.Get(!i).log.dropped
  {
    var c := Cell(n.Get(i).pool[0], Wire(f));
    assert Frames([c] + n.Get(!i).rxq) == [Wire(f)] + Frames(n.Get(!i).rxq);
  }

  /** A burst piles up in front of what was queued, newest first. */
  lemma {:induction false} BurstStacks(cfg: Config, n: Net, steps: seq<Step>, i: Id)
    requires cfg.napi && Burst(steps, i) && Legal(cfg, n, steps) && Run(cfg, n, steps).Some?
    ensures var m := Run(cfg, n, steps).value.Get(!i);
            && Frames(m.rxq) == Reverse(Wires(steps)) + Frames(n.Get(!i).rxq)
            && m.log.up == n.Get(!i).log.up && m.log.dropped == n.Get(!i).log.dropped
    decreases |steps|
  {
    if steps != [] {
      var s := steps[0];
      assert s in steps;
      NapiTx(cfg, n, i, s.skb, s.frame, s.ok);
      BurstStacks(cfg, Apply(cfg, n, s).value, steps[1..], i);
      ReverseCons(Wire(s.frame), Wires(steps[1..]));
      Assoc(Reverse(Wires(steps[1..])), [Wire(s.frame)], Frames(n.Get(!i).rxq));
    } else {
      EmptyConcat(Frames(n.Get(!i).rxq));
    }
  }

  /** One transmission, seen by the twin: queued, and an interrupt unless those are off. */
  lemma {:induction false} NapiTxTwin(cfg: Config, n: Net, i: Id, skb: nat, f: Frame, ok: bool)
    requires cfg.napi && Sendable(f) && n.Get(i).pool != []
    ensures var d, e := n.Get(!i), Tx(cfg, n, i, skb, f, ok).value.Get(!i);
            e == (if d.rxInt then AckTx(d.(rxInt := false, scheduled := true)) else d).(rxq := e.rxq)
  {
    var n1 := n.Set(i, Record(n.Get(i), Sent(skb, Wire(f))));
    FinishLeavesTwin(cfg, Deliver(cfg, n1, i, Wire(f), ok), i, |Wire(f)|, ok);
  }

  lemma {:induction false} FinishLeavesTwin(cfg: Config, n: Net, i: Id, len: nat, ok: bool)
    requires cfg.napi
    ensures FinishTx(cfg, n, i, len, ok).Get(!i) == n.Get(!i)
  {
  }

  /**
   * Interrupt mitigation: a burst interrupts the twin once if its receive
   * interrupts are on, and not at all if they are off. Apart from its receive
   * queue, nothing else happens to it, however long the burst.
   */
  lemma {:induction false} BurstInterruptsOnce(cfg: Config, n: Net, steps: seq<Step>, i: Id)
    requires cfg.napi && Burst(steps, i) && Legal(cfg, n, steps) && Run(cfg, n, steps).Some?
    ensures var d, e := n.Get(!i), Run(cfg, n, steps).value.Get(!i);
            e == (if steps != [] && d.rxInt then AckTx(d.(rxInt := false, scheduled := true)) else d).(rxq := e.rxq)
    decreases |steps|
  {
    if steps != [] {
      var s := steps[0];
      assert s in steps;
      NapiTxTwin(cfg, n, i, s.skb, s.frame, s.ok);
      BurstInterruptsOnce(cfg, Apply(cfg, n, s).value, steps[1..], i);
    }
  }

  /** The elements of s whose allocation attempt, numbered from k, went as told. */
  function Select<T>(s: seq<T>, ok: nat -> bool, k: nat, which: bool): seq<T> {
    if s == [] then []
    else (if ok(k) == which then [s[0]] else []) + Select(s[1..], ok, k + 1, which)
  }

  /** From d to e, the first t cells were taken: those allocated are handed up, the others dropped. */
  ghost predicate Took(d: Dev, e: Dev, t: nat, ok: nat -> bool, k: nat)
    requires t <= |d.rxq|
  {
    forall x {:trigger Unfold(x)} | Unfold(x) ::
      && e.rxq == d.rxq[t..]
      && e.log.up == d.log.up + Select(Frames(d.rxq[..t]), ok, k, true)
      && e.log.dropped == d.log.dropped + Select(Frames(d.rxq[..t]), ok, k, false)
  }

  /**
   * A poll takes a prefix of the queue in queue order, head first, hands up what
   * could be allocated and drops the rest of the prefix, and leaves what follows.
   */
  lemma {:induction false} PollTakesPrefix(n: Net, i: Id, budget: nat, ok: nat -> bool, done: nat, k: nat)
    requires done <= budget
    ensures var d, e := n.Get(i), PollLoop(n, i, budget, ok, done, k).0.Get(i);
            |e.rxq| <= |d.rxq| && Took(d, e, |d.rxq| - |e.rxq|, ok, k)
    decreases |n.Get(i).rxq|
  {
    if done < budget && n.Get(i).rxq != [] {
      var n', done' := ReceiveHead(n, i, ok(k)), if ok(k) then done + 1 else done;
      PollTakesPrefix(n', i, budget, ok, done', k + 1);
      PrefixCons(n, i, ok, k, PollLoop(n', i, budget, ok, done', k + 1).0.Get(i));
    } else {
      TookNothing(n.Get(i), ok, k);
    }
  }

  lemma {:induction false} PollLoopReturns(n: Net, i: Id, budget: nat, ok: nat -> bool, done: nat, k: nat)
    ensures var (m, r) := PollLoop(n, i, budget, ok, done, k);
            r - done == |m.Get(i).log.up| - |n.Get(i).log.up|
    decreases |n.Get(i).rxq|
  {
    if done < budget && n.Get(i).rxq != [] {
      PollLoopReturns(ReceiveHead(n, i, ok(k)), i, budget, ok, if ok(k) then done + 1 else done, k + 1);
    }
  }

  /**
   * A poll returns how many frames it handed up, at most its budget. Short of the
   * budget it has emptied the queue and turned interrupts back on; at the budget
   * it stays scheduled.
   */
  lemma {:induction false} PollReturns(n: Net, i: Id, budget: nat, ok: nat -> bool)
    ensures var (m, r) := Poll(n, i, budget, ok);
            var d, e := n.Get(i), m.Get(i);
            && r == |e.log.up| - |d.log.up| && r <= budget
            && (r < budget ==> e.rxq == [] && e.rxInt && !e.scheduled)
            && (r == budget ==> e.rxInt == d.rxInt && e.scheduled == d.scheduled)
  {
    PollLoopReturns(n, i, budget, ok, 0, 0);
    PollLoopStops(n, i, budget, ok, 0, 0);
  }

  lemma {:induction false} TookNothing(d: Dev, ok: nat -> bool, k: nat)
    ensures Took(d, d, 0, ok, k)
  {
    assert Frames(d.rxq[..0]) == [];
  }

  /** The head, and then the first t cells of what follows, make the first t + 1 cells. */
  lemma {:induction false} PrefixCons(n: Net, i: Id, ok: nat -> bool, k: nat, e: Dev)
    requires n.Get(i).rxq != []
    requires var d := ReceiveHead(n, i, ok(k)).Get(i);
             |e.rxq| <= |d.rxq| && Took(d, e, |d.rxq| - |e.rxq|, ok, k + 1)
    ensures var d := n.Get(i);
            Took(d, e, |d.rxq| - |e.rxq|, ok, k)
  {
    assert Unfold(0);
    var d, q := n.Get(i), n.Get(i).rxq;
    var t := |q| - |e.rxq|;
    ReceiveHeadLogs(n, i, ok(k));
    SelectHead(q, t, ok, k, d.log.up, true);
    SelectHead(q, t, ok, k, d.log.dropped, false);
    assert q[1..][t - 1..] == q[t..];
  }

  lemma {:induction false} SelectHead(q: seq<Cell>, t: nat, ok: nat -> bool, k: nat, log: seq<Frame>, which: bool)
    requires 1 <= t <= |q|
    ensures var head := if ok(k) == which then [q[0].frame] else [];
            && Select(Frames(q[..t]), ok, k, which) == head + Select(Frames(q[1..][..t - 1]), ok, k + 1, which)
            && log + Select(Frames(q[..t]), ok, k, which)
               == (log + head) + Select(Frames(q[1..][..t - 1]), ok, k + 1, which)
  {
    assert Frames(q[..t])[1..] == Frames(q[1..][..t - 1]);
    Assoc(log, if ok(k) == which then [q[0].frame] else [], Select(Frames(q[1..][..t - 1]), ok, k + 1, which));
  }

  /** So a poll whose budget covers the queue takes all of it. */
  lemma {:induction false} PollTakesQueue(n: Net, i: Id, budget: nat, ok: nat -> bool)
    requires |n.Get(i).rxq| <= budget
    ensures var m, q := PollLoop(n, i, budget, ok, 0, 0).0, Frames(n.Get(i).rxq);
            && m.Get(i).rxq == []
            && m.Get(i).log.up == n.Get(i).log.up + Select(q, ok, 0, true)
            && m.Get(i).log.dropped == n.Get(i).log.dropped + Select(q, ok, 0, false)
  {
    var q, m := n.Get(i).rxq, PollLoop(n, i, budget, ok, 0, 0).0;
    PollTakesPrefix(n, i, budget, ok, 0, 0);
    var t := |q| - |m.Get(i).rxq|;
    assert Unfold(0);
    PollLoopReturns(n, i, budget, ok, 0, 0);
    PollLoopStops(n, i, budget, ok, 0, 0);
    SelectAtMost(Frames(q[..t]), ok, 0);
    assert q[..|q|] == q;
  }

  lemma {:induction false} SelectAtMost<T>(s: seq<T>, ok: nat -> bool, k: nat)
    ensures |Select(s, ok, k, true)| <= |s|
  {
    if s != [] { SelectAtMost(s[1..], ok, k + 1); }
  }

  lemma {:induction false} ReceiveHeadLogs(n: Net, i: Id, ok: bool)
    requires n.Get(i).rxq != []
    ensures var f, m := n.Get(i).rxq[0].frame, ReceiveHead(n, i, ok).Get(i);
            && m.log.up == n.Get(i).log.up + (if ok then [f] else [])
            && m.log.dropped == n.Get(i).log.dropped + (if ok then [] else [f])
  {
  }

  /**
   * NAPI order: a burst onto an empty queue, polled with a budget that covers
   * it, reaches the stack in reverse, minus allocation failures.
   */
  lemma {:induction false} NapiReverses(cfg: Config, n: Net, steps: seq<Step>, i: Id, budget: nat, ok: nat -> bool)
    requires cfg.napi && Burst(steps, i) && Legal(cfg, n, steps) && Run(cfg, n, steps).Some?
    requires n.Get(!i).rxq == [] && |steps| <= budget
    ensures var m := Poll(Run(cfg, n, steps).value, !i, budget, ok).0.Get(!i);
            && m.log.up == n.Get(!i).log.up + Select(Reverse(Wires(steps)), ok, 0, true)
            && m.log.dropped == n.Get(!i).log.dropped + Select(Reverse(Wires(steps)), ok, 0, false)
            && m.rxq == []
    ensures (forall k :: ok(k)) ==>
              Poll(Run(cfg, n, steps).value, !i, budget, ok).0.Get(!i).log.up
              == n.Get(!i).log.up + Reverse(Wires(steps))
  {
    var m := Run(cfg, n, steps).value;
    BurstStacks(cfg, n, steps, i);
    assert Frames(m.Get(!i).rxq) == Reverse(Wires(steps));
    ReverseLength(Wires(steps));
    WiresLength(steps);
    PollTakesQueue(m, !i, budget, ok);
    if forall k :: ok(k) { SelectAll(Reverse(Wires(steps)), ok, 0); }
  }

  lemma {:induction false} ReverseLength<T>(s: seq<T>)
    ensures |Reverse(s)| == |s|
  {
    if s != [] { ReverseLength(s[1..]); }
  }

  lemma {:induction false} WiresLength(steps: seq<Step>)
    requires forall s | s in steps :: s.TxStep? && Sendable(s.frame)
    ensures |Wires(steps)| == |steps|
  {
    if steps != [] { WiresLength(steps[1..]); }
  }

  lemma {:induction false} SelectAll<T>(s: seq<T>, ok: nat -> bool, k: nat)
    requires forall j :: ok(j)
    ensures Select(s, ok, k, true) == s
  {
    if s != [] {
      SelectAll(s[1..], ok, k + 1);
      assert s == [s[0]] + s[1..];
    }
  }

  // --------------------------------------------------- NAPI over every run

  /** The reference: frames in flight form a stack. */
  datatype Stack = Stack(waiting: seq<Frame>, up: seq<Frame>, dropped: seq<Frame>) {
    function Push(f: Frame): Stack { this.(waiting := [f] + waiting) }

    /** Pop until the stack is empty or the budget is spent; a frame that cannot be allocated is dropped. */
    function Pop(budget: nat, ok: nat -> bool, k: nat): Stack
      decreases |waiting|
    {
      if budget == 0 || waiting == [] then this
      else if ok(k) then Stack(waiting[1..], up + [waiting[0]], dropped).Pop(budget - 1, ok, k + 1)
      else Stack(waiting[1..], up, dropped + [waiting[0]]).Pop(budget, ok, k + 1)
    }
  }

  /** What the steps of a run do to the frames on the way from device i. */
  ghost function StackRun(k: Stack, steps: seq<Step>, i: Id): Stack
    decreases |steps|
  {
    if steps == [] then k
    else
      var s := steps[0];
      var k' := if s.TxStep? && s.i == i && Sendable(s.frame) then k.Push(Wire(s.frame))
                else if s.PollStep? && s.i != i then k.Pop(s.budget, s.oks, 0)
                else k;
      StackRun(k', steps[1..], i)
  }

  ghost function StackOf(d: Dev): Stack { Stack(Frames(d.rxq), d.log.up, d.log.dropped) }

  lemma {:induction false} PollPops(n: Net, i: Id, budget: nat, ok: nat -> bool, done: nat, k: nat)
    requires done <= budget
    ensures StackOf(PollLoop(n, i, budget, ok, done, k).0.Get(i)) == StackOf(n.Get(i)).Pop(budget - done, ok, k)
    decreases |n.Get(i).rxq|
  {
    var q := n.Get(i).rxq;
    if done < budget && q != [] {
      var n' := ReceiveHead(n, i, ok(k));
      HeadPops(n, i, ok(k));
      PollPops(n', i, budget, ok, if ok(k) then done + 1 else done, k + 1);
    }
  }

  lemma {:induction false} HeadPops(n: Net, i: Id, ok: bool)
    requires n.Get(i).rxq != []
    ensures var k := StackOf(n.Get(i));
            && k.waiting != []
            && StackOf(ReceiveHead(n, i, ok).Get(i))
               == if ok then Stack(k.waiting[1..], k.up + [k.waiting[0]], k.dropped)
                  else Stack(k.waiting[1..], k.up, k.dropped + [k.waiting[0]])
  {
    ReceiveHeadLogs(n, i, ok);
    assert Frames(n.Get(i).rxq)[1..] == Frames(n.Get(i).rxq[1..]);
  }

  lemma {:induction false} PollLeavesTwin(n: Net, i: Id, budget: nat, ok: nat -> bool, done: nat, k: nat)
    ensures StackOf(PollLoop(n, i, budget, ok, done, k).0.Get(!i)) == StackOf(n.Get(!i))
    decreases |n.Get(i).rxq|
  {
    if done < budget && n.Get(i).rxq != [] {
      PollLeavesTwin(ReceiveHead(n, i, ok(k)), i, budget, ok, if ok(k) then done + 1 else done, k + 1);
    }
  }

  /** In NAPI mode a transmission puts nothing on the sender's own queue. */
  lemma {:induction false} NapiTxSender(cfg: Config, n: Net, i: Id, skb: nat, f: Frame, ok: bool)
    requires cfg.napi && Sendable(f) && n.Get(i).pool != []
    ensures StackOf(Tx(cfg, n, i, skb, f, ok).value.Get(i)) == StackOf(n.Get(i))
  {
  }

  lemma {:induction false} NapiStep(cfg: Config, n: Net, s: Step, i: Id)
    requires cfg.napi && Enabled(cfg, n, s) && Apply(cfg, n, s).Some?
    ensures StackOf(Apply(cfg, n, s).value.Get(!i))
            == if s.TxStep? && s.i == i then StackOf(n.Get(!i)).Push(Wire(s.frame))
               else if s.PollStep? && s.i != i then StackOf(n.Get(!i)).Pop(s.budget, s.oks, 0)
               else StackOf(n.Get(!i))
  {
    match s
    case TxStep(j, skb, f, ok) =>
      if j == i { NapiTx(cfg, n, i, skb, f, ok); } else { NapiTxSender(cfg, n, j, skb, f, ok); }
    case PollStep(j, budget, oks) =>
      if j != i { PollPops(n, j, budget, oks, 0, 0); } else { PollLeavesTwin(n, j, budget, oks, 0, 0); }
    case TimeoutStep(j) =>
  }

  /**
   * NAPI order over every run, from any state: frames wait, reach the stack and
   * are lost exactly as on a stack that transmissions push and polls pop.
   */
  lemma {:induction false} NapiIsStack(cfg: Config, n: Net, steps: seq<Step>, i: Id)
    requires cfg.napi && Legal(cfg, n, steps) && Run(cfg, n, steps).Some?
    ensures StackOf(Run(cfg, n, steps).value.Get(!i)) == StackRun(StackOf(n.Get(!i)), steps, i)
    decreases |steps|
  {
    if steps != [] {
      NapiStep(cfg, n, steps[0], i);
      NapiIsStack(cfg, Apply(cfg, n, steps[0]).value, steps[1..], i);
    }
  }
}
