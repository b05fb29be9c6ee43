/**
 * Interrupt mitigation and flow control over every run: no packet is stranded
 * behind disabled interrupts, and the transmit queue stops before the pool runs dry.
 */
module SnullFlow {
  import opened Options
  import opened Bytes
  import opened Ethernet
  import opened SnullFrame
  import opened SnullModel
  import opened SnullConservation

  // ------------------------------------------------- no stranded packets

  /**
   * NAPI: receive interrupts are off exactly while a poll is scheduled, and
   * while they are on nothing waits. Regular: they are always on and nothing
   * ever waits between steps.
   */
  predicate Attended(cfg: Config, d: Dev) {
    && !d.rxIntr
    && (d.rxInt <==> !d.scheduled)
    && (d.rxInt ==> d.rxq == [])
    && (!cfg.napi ==> d.rxInt)
  }

  predicate AllAttended(cfg: Config, n: Net) { Attended(cfg, n.d0) && Attended(cfg, n.d1) }

  /** The loop leaves the twin's queue and all interrupt state alone, and stops on an empty queue or a spent budget. */
  lemma {:induction false} PollLoopStops(n: Net, i: Id, budget: nat, ok: nat -> bool, done: nat, k: nat)
    requires done <= budget
    ensures var (m, r) := PollLoop(n, i, budget, ok, done, k);
            && done <= r <= budget
            && (r < budget ==> m.Get(i).rxq == [])
            && |m.Get(i).rxq| + (r - done) <= |n.Get(i).rxq|
            && (forall j :: m.Get(j).rxInt == n.Get(j).rxInt && m.Get(j).rxIntr == n.Get(j).rxIntr
                            && m.Get(j).scheduled == n.Get(j).scheduled && m.Get(j).txIntr == n.Get(j).txIntr)
            && m.Get(!i).rxq == n.Get(!i).rxq
    decreases |n.Get(i).rxq|
  {
    if done < budget && n.Get(i).rxq != [] {
      PollLoopStops(ReceiveHead(n, i, ok(k)), i, budget, ok, if ok(k) then done + 1 else done, k + 1);
    }
  }

  /** Delivering to a device that accepts interrupts has it serviced at once. */
  lemma {:induction false} DeliverAttended(cfg: Config, n: Net, i: Id, f: Frame, ok: bool)
    requires AllAttended(cfg, n) && n.Get(i).pool != []
    requires Owners(n.d0, n.d1, false) && Owners(n.d1, n.d0, true)
    ensures AllAttended(cfg, Deliver(cfg, n, i, f, ok))
    ensures Deliver(cfg, n, i, f, ok).Get(i).txIntr == n.Get(i).txIntr
  {
  }

  lemma {:induction false} FinishAttended(cfg: Config, n: Net, i: Id, len: nat, ok: bool)
    requires AllAttended(cfg, n)
    ensures AllAttended(cfg, FinishTx(cfg, n, i, len, ok))
  {
  }

  lemma {:induction false} StepAttended(cfg: Config, n: Net, s: Step)
    requires AllAttended(cfg, n) && Enabled(cfg, n, s) && Apply(cfg, n, s).Some?
    requires Owners(n.d0, n.d1, false) && Owners(n.d1, n.d0, true)
    ensures AllAttended(cfg, Apply(cfg, n, s).value)
  {
    match s
    case TxStep(i, skb, f, ok) =>
      var n1 := n.Set(i, Record(n.Get(i), Sent(skb, Wire(f))));
      DeliverAttended(cfg, n1, i, Wire(f), ok);
      FinishAttended(cfg, Deliver(cfg, n1, i, Wire(f), ok), i, |Wire(f)|, ok);
    case PollStep(i, budget, oks) =>
      PollLoopStops(n, i, budget, oks, 0, 0);
    case TimeoutStep(i) =>
  }

  lemma {:induction false} RunAttended(cfg: Config, n: Net, steps: seq<Step>, w: Probe)
    requires AllAttended(cfg, n) && Inv(n, w) && Legal(cfg, n, steps) && Run(cfg, n, steps).Some?
    ensures AllAttended(cfg, Run(cfg, n, steps).value)
    decreases |steps|
  {
    if steps != [] {
      StepAttended(cfg, n, steps[0]);
      StepKeepsInv(cfg, n, steps[0], w);
      RunAttended(cfg, Apply(cfg, n, steps[0]).value, steps[1..], w);
    }
  }

  /** No stranded packet, in every reachable state and for every lockup and watchdog pattern. */
  lemma {:induction false} NoStrandedPacket(cfg: Config, owned0: nat, owned1: nat, steps: seq<Step>)
    requires Legal(cfg, Init(owned0, owned1), steps) && Run(cfg, Init(owned0, owned1), steps).Some?
    ensures AllAttended(cfg, Run(cfg, Init(owned0, owned1), steps).value)
  {
    var w := Probe(owned0, owned1, Pkt(false, 0), []);
    InitInv(w);
    RunAttended(cfg, Init(owned0, owned1), steps, w);
  }

  // -------------------------------------------------------- flow control

  /** An empty pool has stopped the queue; in the exact form, nothing else has. */
  predicate Flow(exact: bool, d: Dev) {
    && (d.pool == [] ==> d.stopped)
    && (exact && d.stopped ==> d.pool == [])
  }

  predicate FlowOk(exact: bool, n: Net) { Flow(exact, n.d0) && Flow(exact, n.d1) }

  lemma {:induction false} ReceiveHeadFlow(exact: bool, n: Net, i: Id, ok: bool)
    requires FlowOk(exact, n) && n.Get(i).rxq != []
    ensures FlowOk(exact, ReceiveHead(n, i, ok))
  {
  }

  lemma {:induction false} PollLoopFlow(
    exact: bool, n: Net, i: Id, budget: nat, ok: nat -> bool, done: nat, k: nat)
    requires FlowOk(exact, n)
    ensures FlowOk(exact, PollLoop(n, i, budget, ok, done, k).0)
    decreases |n.Get(i).rxq|
  {
    if done < budget && n.Get(i).rxq != [] {
      ReceiveHeadFlow(exact, n, i, ok(k));
      PollLoopFlow(exact, ReceiveHead(n, i, ok(k)), i, budget, ok, if ok(k) then done + 1 else done, k + 1);
    }
  }

  lemma {:induction false} InterruptFlow(exact: bool, cfg: Config, n: Net, i: Id, ok: bool)
    requires FlowOk(exact, n)
    ensures FlowOk(exact, Interrupt(cfg, n, i, ok))
  {
    AckFlow(exact, n.Get(i));
    AckFlow(exact, n.Get(i).(rxInt := false, scheduled := true));
    if Receives(cfg, n, i) {
      ReceiveHeadFlow(exact, n, i, ok);
      AckFlow(exact, ReceiveHead(n, i, ok).Get(i));
    }
  }

  lemma {:induction false} AckFlow(exact: bool, d: Dev)
    ensures Flow(exact, AckTx(d)) <==> Flow(exact, d)
  {
  }

  lemma {:induction false} DeliverFlow(exact: bool, cfg: Config, n: Net, i: Id, f: Frame, ok: bool)
    requires FlowOk(exact, n) && n.Get(i).pool != []
    ensures FlowOk(exact, Deliver(cfg, n, i, f, ok))
  {
    var taken := n.Set(i, TakeBuffer(n.Get(i)));
    var queued := taken.Set(!i, Enqueue(taken.Get(!i), Cell(n.Get(i).pool[0], f)));
    assert FlowOk(exact, queued);
    InterruptFlow(exact, cfg, queued.Set(!i, queued.Get(!i).(rxIntr := true)), !i, ok);
  }

  lemma {:induction false} FinishFlow(exact: bool, cfg: Config, n: Net, i: Id, len: nat, ok: bool)
    requires FlowOk(exact, n) && (exact ==> cfg.lockup == 0)
    ensures FlowOk(exact, FinishTx(cfg, n, i, len, ok))
  {
    InterruptFlow(exact, cfg, n.Set(i, n.Get(i).(txLen := len, txIntr := true)), i, ok);
  }

  lemma {:induction false} TxFlow(exact: bool, cfg: Config, n: Net, i: Id, skb: nat, f: Frame, ok: bool)
    requires FlowOk(exact, n) && Sendable(f) && n.Get(i).pool != [] && (exact ==> cfg.lockup == 0)
    ensures FlowOk(exact, Tx(cfg, n, i, skb, f, ok).value)
  {
    var x := Sent(skb, Wire(f));
    var n1 := n.Set(i, Record(n.Get(i), x));
    DeliverFlow(exact, cfg, n1, i, x.frame, ok);
    FinishFlow(exact, cfg, Deliver(cfg, n1, i, x.frame, ok), i, |x.frame|, ok);
  }

  lemma {:induction false} TimeoutKeepsPools(cfg: Config, n: Net, i: Id)
    ensures forall j :: Timeout(cfg, n, i).Get(j).pool == n.Get(j).pool
    ensures !Timeout(cfg, n, i).Get(i).stopped
    ensures Timeout(cfg, n, i).Get(!i) == n.Get(!i)
  {
  }

  lemma {:induction false} StepFlow(exact: bool, cfg: Config, n: Net, s: Step)
    requires FlowOk(exact, n) && Enabled(cfg, n, s)
    requires s.TimeoutStep? ==> !exact && n.Get(s.i).pool != []
    requires exact ==> cfg.lockup == 0
    ensures Apply(cfg, n, s).Some? && FlowOk(exact, Apply(cfg, n, s).value)
  {
    match s
    case TxStep(i, skb, f, ok) => TxFlow(exact, cfg, n, i, skb, f, ok);
    case PollStep(i, budget, oks) => PollLoopFlow(exact, n, i, budget, oks, 0, 0);
    case TimeoutStep(i) => TimeoutKeepsPools(cfg, n, i);
  }

  ghost predicate NoTimeouts(steps: seq<Step>) { forall s | s in steps :: !s.TimeoutStep? }

  lemma {:induction false} RunExact(cfg: Config, n: Net, steps: seq<Step>)
    requires cfg.lockup == 0 && NoTimeouts(steps) && FlowOk(true, n) && Legal(cfg, n, steps)
    ensures Run(cfg, n, steps).Some? && FlowOk(true, Run(cfg, n, steps).value)
    decreases |steps|
  {
    if steps != [] {
      assert steps[0] in steps;
      StepFlow(true, cfg, n, steps[0]);
      RunExact(cfg, Apply(cfg, n, steps[0]).value, steps[1..]);
    }
  }

  /**
   * Flow control: without lockup simulation and watchdog, no run ever meets an
   * empty pool, and the queue is stopped exactly when the pool is empty.
   */
  lemma {:induction false} FlowControl(cfg: Config, owned0: nat, owned1: nat, steps: seq<Step>)
    requires owned0 >= 1 && owned1 >= 1 && cfg.lockup == 0 && NoTimeouts(steps)
    requires Legal(cfg, Init(owned0, owned1), steps)
    ensures Run(cfg, Init(owned0, owned1), steps).Some?
    ensures var n := Run(cfg, Init(owned0, owned1), steps).value;
            forall i :: n.Get(i).stopped <==> n.Get(i).pool == []
  {
    RunExact(cfg, Init(owned0, owned1), steps);
  }

  /** The watchdog fires only on devices that still have a free packet. */
  ghost predicate CarefulWatchdog(cfg: Config, n: Net, steps: seq<Step>)
    requires Legal(cfg, n, steps)
    decreases |steps|
  {
    steps != [] ==>
      && (steps[0].TimeoutStep? ==> n.Get(steps[0].i).pool != [])
      && (Apply(cfg, n, steps[0]).Some? ==> CarefulWatchdog(cfg, Apply(cfg, n, steps[0]).value, steps[1..]))
  }

  /** Every transmission the stack may start on either device finds a packet. */
  ghost predicate Safe(cfg: Config, n: Net) {
    forall i: Id, skb: nat, f: Frame, ok: bool | !n.Get(i).stopped && Sendable(f) :: Tx(cfg, n, i, skb, f, ok).Some?
  }

  ghost predicate SafeThroughout(cfg: Config, n: Net, steps: seq<Step>)
    requires Legal(cfg, n, steps)
    decreases |steps|
  {
    && Safe(cfg, n)
    && (steps != [] && Apply(cfg, n, steps[0]).Some? ==>
          SafeThroughout(cfg, Apply(cfg, n, steps[0]).value, steps[1..]))
  }

  /** There is a frame to send: an IPv4 header and nothing else, padded. */
  lemma {:induction false} SomeFrame() returns (f: Frame)
    ensures Sendable(f)
  {
    f := Zeros(ETH_ZLEN)[ETH_HLEN := 0x45];
  }

  lemma {:induction false} SafeIffGuarded(cfg: Config, n: Net)
    ensures Safe(cfg, n) <==> FlowOk(false, n)
  {
    var f := SomeFrame();
    if Safe(cfg, n) {
      forall i: Id | !n.Get(i).stopped ensures n.Get(i).pool != [] { assert Tx(cfg, n, i, 0, f, true).Some?; }
      assert Flow(false, n.Get(false)) && Flow(false, n.Get(true));
    }
  }

  /** A firing on an empty pool leaves a running queue without a packet. */
  lemma {:induction false} CarelessFiring(cfg: Config, n: Net, i: Id)
    requires n.Get(i).pool == []
    ensures !FlowOk(false, Timeout(cfg, n, i))
  {
    TimeoutKeepsPools(cfg, n, i);
    assert !Flow(false, Timeout(cfg, n, i).Get(i));
  }

  /**
   * The exact condition for safety, from any guarded state, with any lockup
   * setting and in both modes: no state of the run lets the stack start a
   * transmission that meets an empty pool if and only if the watchdog never
   * fires on a device without a free packet. The run then does not crash.
   */
  lemma {:induction false} WatchdogExactlyUnsafe(cfg: Config, n: Net, steps: seq<Step>)
    requires FlowOk(false, n) && Legal(cfg, n, steps)
    ensures SafeThroughout(cfg, n, steps) <==> CarefulWatchdog(cfg, n, steps)
    ensures CarefulWatchdog(cfg, n, steps) ==>
              Run(cfg, n, steps).Some? && FlowOk(false, Run(cfg, n, steps).value)
    decreases |steps|
  {
    SafeIffGuarded(cfg, n);
    if steps != [] {
      var s := steps[0];
      if s.TimeoutStep? && n.Get(s.i).pool == [] {
        CarelessFiring(cfg, n, s.i);
        SafeIffGuarded(cfg, Apply(cfg, n, s).value);
      } else {
        StepFlow(false, cfg, n, s);
        WatchdogExactlyUnsafe(cfg, Apply(cfg, n, s).value, steps[1..]);
      }
    }
  }

  /** The same from boot. */
  lemma {:induction false} SafeIffCareful(cfg: Config, owned0: nat, owned1: nat, steps: seq<Step>)
    requires owned0 >= 1 && owned1 >= 1 && Legal(cfg, Init(owned0, owned1), steps)
    ensures SafeThroughout(cfg, Init(owned0, owned1), steps) <==> CarefulWatchdog(cfg, Init(owned0, owned1), steps)
    ensures CarefulWatchdog(cfg, Init(owned0, owned1), steps) ==> Run(cfg, Init(owned0, owned1), steps).Some?
  {
    WatchdogExactlyUnsafe(cfg, Init(owned0, owned1), steps);
  }

  /** Such a run from boot: NAPI mode, pools of one packet, and the twin not polled in time. */
  lemma {:induction false} WatchdogCrash(skb: nat, f: Frame, ok: bool)
    requires Sendable(f)
    ensures var cfg := Config(true, 0);
            var steps := [TxStep(false, skb, f, ok), TimeoutStep(false), TxStep(false, skb, f, ok)];
            Legal(cfg, Init(1, 1), steps) && Run(cfg, Init(1, 1), steps).None?
  {
    FirstTxEmptiesPool(skb, f, ok);
    CrashRun(Config(true, 0), Init(1, 1), TxStep(false, skb, f, ok));
  }

  lemma {:induction false} CrashRun(cfg: Config, n: Net, t: Step)
    requires t.TxStep? && Enabled(cfg, n, t)
    requires Apply(cfg, n, t).Some? && Apply(cfg, n, t).value.Get(t.i).pool == []
    ensures var steps := [t, TimeoutStep(t.i), t];
            Legal(cfg, n, steps) && Run(cfg, n, steps).None?
  {
    var w := TimeoutStep(t.i);
    var n1 := Apply(cfg, n, t).value;
    TimeoutKeepsPools(cfg, n1, t.i);
    RunCons(cfg, Apply(cfg, n1, w).value, t, []);
    RunCons(cfg, n1, w, [t]);
    RunCons(cfg, n, t, [w, t]);
    assert [t] + [w, t] == [t, w, t] && [w] + [t] == [w, t] && [t] + [] == [t];
  }

  lemma {:induction false} FirstTxEmptiesPool(skb: nat, f: Frame, ok: bool)
    requires Sendable(f)
    ensures var n := Tx(Config(true, 0), Init(1, 1), false, skb, f, ok);
            n.Some? && n.value.d0.pool == []
  {
  }

  lemma {:induction false} RunCons(cfg: Config, n: Net, s: Step, rest: seq<Step>)
    requires Enabled(cfg, n, s)
    ensures var next := Apply(cfg, n, s);
            && Legal(cfg, n, [s] + rest) == (next.Some? ==> Legal(cfg, next.value, rest))
            && (Legal(cfg, n, [s] + rest) ==>
                  Run(cfg, n, [s] + rest) == if next.None? then None else Run(cfg, next.value, rest))
  {
    assert ([s] + rest)[1..] == rest;
  }

  /** In regular mode the whole pool is back after every step, so nothing can go wrong at all. */
  lemma {:induction false} RegularNeverCrashes(cfg: Config, owned0: nat, owned1: nat, steps: seq<Step>)
    requires !cfg.napi && owned0 >= 1 && owned1 >= 1 && Legal(cfg, Init(owned0, owned1), steps)
    ensures Run(cfg, Init(owned0, owned1), steps).Some?
    ensures forall i :: |Run(cfg, Init(owned0, owned1), steps).value.Get(i).pool| == if i then owned1 else owned0
    decreases |steps|
  {
    var n0 := Init(owned0, owned1);
    if steps != [] {
      var prefix, last := steps[..|steps| - 1], steps[|steps| - 1];
      RunSplit(cfg, n0, steps);
      RegularNeverCrashes(cfg, owned0, owned1, prefix);
    }
    NoStrandedPacket(cfg, owned0, owned1, steps);
    BufferConservation(cfg, owned0, owned1, steps, false);
    BufferConservation(cfg, owned0, owned1, steps, true);
  }

  /** A run is its prefix followed by its last step. */
  lemma {:induction false} RunSplit(cfg: Config, n: Net, steps: seq<Step>)
    requires steps != [] && Legal(cfg, n, steps)
    ensures var prefix, last := steps[..|steps| - 1], steps[|steps| - 1];
            && Legal(cfg, n, prefix)
            && (Run(cfg, n, prefix).Some? ==>
                  && Enabled(cfg, Run(cfg, n, prefix).value, last)
                  && Run(cfg, n, steps) == Apply(cfg, Run(cfg, n, prefix).value, last))
    decreases |steps|
  {
    var prefix, last := steps[..|steps| - 1], steps[|steps| - 1];
    if |steps| == 1 {
      assert prefix == [];
    } else if Apply(cfg, n, steps[0]).Some? {
      RunSplit(cfg, Apply(cfg, n, steps[0]).value, steps[1..]);
      assert steps[1..][..|steps| - 2] == prefix[1..];
      assert steps[1..][|steps| - 2] == last;
    }
  }

  // -------------------------------------------------- stopped by a lockup

  /** Stopped although there are free packets: only a lockup does that. */
  predicate Locked(d: Dev) { d.stopped && d.pool != [] }

  lemma {:induction false} HeadKeepsLocked(n: Net, i: Id, ok: bool, j: Id)
    requires n.Get(i).rxq != [] && Locked(n.Get(j))
    ensures Locked(ReceiveHead(n, i, ok).Get(j))
  {
  }

  lemma {:induction false} PollKeepsLocked(
    n: Net, i: Id, budget: nat, ok: nat -> bool, done: nat, k: nat, j: Id)
    requires Locked(n.Get(j))
    ensures Locked(PollLoop(n, i, budget, ok, done, k).0.Get(j))
    decreases |n.Get(i).rxq|
  {
    if done < budget && n.Get(i).rxq != [] {
      HeadKeepsLocked(n, i, ok(k), j);
      PollKeepsLocked(ReceiveHead(n, i, ok(k)), i, budget, ok, if ok(k) then done + 1 else done, k + 1, j);
    }
  }

  lemma {:induction false} AckKeepsLocked(d: Dev)
    requires Locked(d)
    ensures Locked(AckTx(d))
  {
  }

  lemma {:induction false} InterruptKeepsLocked(cfg: Config, n: Net, i: Id, ok: bool, j: Id)
    requires Locked(n.Get(j))
    ensures Locked(Interrupt(cfg, n, i, ok).Get(j))
  {
    if j == i {
      AckKeepsLocked(n.Get(i));
      AckKeepsLocked(n.Get(i).(rxInt := false, scheduled := true));
    }
    if Receives(cfg, n, i) {
      HeadKeepsLocked(n, i, ok, j);
      if j == i { AckKeepsLocked(ReceiveHead(n, i, ok).Get(i)); }
    }
  }

  lemma {:induction false} TxKeepsLocked(cfg: Config, n: Net, i: Id, skb: nat, f: Frame, ok: bool)
    requires Locked(n.Get(!i)) && Sendable(f) && n.Get(i).pool != []
    ensures Locked(Tx(cfg, n, i, skb, f, ok).value.Get(!i))
  {
    var n1 := n.Set(i, Record(n.Get(i), Sent(skb, Wire(f))));
    var taken := n1.Set(i, TakeBuffer(n1.Get(i)));
    var queued := taken.Set(!i, Enqueue(taken.Get(!i), Cell(n1.Get(i).pool[0], Wire(f))));
    InterruptKeepsLocked(cfg, queued.Set(!i, queued.Get(!i).(rxIntr := true)), !i, ok, !i);
    var n2 := Deliver(cfg, n1, i, Wire(f), ok);
    InterruptKeepsLocked(cfg, n2.Set(i, n2.Get(i).(txLen := |Wire(f)|, txIntr := true)), i, ok, !i);
  }

  /**
   * A queue that a lockup stopped while packets were free stays stopped until its
   * watchdog fires, whatever is received, released and polled meanwhile, and
   * nothing is transmitted on it.
   */
  lemma {:induction false} LockedUntilWatchdog(cfg: Config, n: Net, steps: seq<Step>, i: Id)
    requires Locked(n.Get(i)) && Legal(cfg, n, steps) && Run(cfg, n, steps).Some? && TimeoutStep(i) !in steps
    ensures Locked(Run(cfg, n, steps).value.Get(i))
    ensures forall s | s in steps :: s.TxStep? ==> s.i != i
    decreases |steps|
  {
    if steps != [] {
      assert steps[0] in steps;
      match steps[0] {
        case TxStep(j, skb, f, ok) => TxKeepsLocked(cfg, n, j, skb, f, ok);
        case PollStep(j, budget, oks) => PollKeepsLocked(n, j, budget, oks, 0, 0, i);
        case TimeoutStep(j) => TimeoutKeepsPools(cfg, n, j);
      }
      LockedUntilWatchdog(cfg, Apply(cfg, n, steps[0]).value, steps[1..], i);
      assert steps == [steps[0]] + steps[1..];
    }
  }

  // ---------------------------------------------------------- poll drain

  /**
   * How many polls NAPI makes before the queue is drained and interrupts are
   * back on, with no arrivals in between; poll number j sees allocation results oks(j).
   */
  ghost function Polls(n: Net, i: Id, budget: nat, oks: nat -> nat -> bool, j: nat): (Net, nat)
    requires budget > 0
    decreases |n.Get(i).rxq|
  {
    PollLoopStops(n, i, budget, oks(j), 0, 0);
    var (m, done) := Poll(n, i, budget, oks(j));
    if done < budget then (m, 1)
    else
      var (r, c) := Polls(m, i, budget, oks, j + 1);
      (r, c + 1)
  }

  lemma {:induction false} PollLoopExact(n: Net, i: Id, budget: nat, ok: nat -> bool, done: nat, k: nat)
    requires done <= budget && forall a :: ok(a)
    ensures var (m, r) := PollLoop(n, i, budget, ok, done, k);
            |m.Get(i).rxq| + (r - done) == |n.Get(i).rxq|
    decreases |n.Get(i).rxq|
  {
    if done < budget && n.Get(i).rxq != [] {
      PollLoopExact(ReceiveHead(n, i, ok(k)), i, budget, ok, done + 1, k + 1);
    }
  }

  /** In multiplied form: each poll but the last uses its whole budget. */
  lemma {:induction false} DrainSteps(n: Net, i: Id, budget: nat, oks: nat -> nat -> bool, j: nat)
    requires budget > 0
    ensures var (m, c) := Polls(n, i, budget, oks, j);
            && m.Get(i).rxq == [] && m.Get(i).rxInt && !m.Get(i).scheduled
            && c >= 1 && budget * (c - 1) <= |n.Get(i).rxq|
            && ((forall a, b :: oks(a)(b)) ==> |n.Get(i).rxq| < budget * c)
    decreases |n.Get(i).rxq|
  {
    PollLoopStops(n, i, budget, oks(j), 0, 0);
    var (m, done) := Poll(n, i, budget, oks(j));
    if forall a, b :: oks(a)(b) {
      PollLoopExact(n, i, budget, oks(j), 0, 0);
    }
    if done == budget {
      DrainSteps(m, i, budget, oks, j + 1);
      var c := Polls(m, i, budget, oks, j + 1).1;
      MulStep(budget, c);
    }
  }

  lemma {:induction false} MulStep(m: nat, c: int)
    ensures m * (c + 1) == m * c + m && m * c == m * (c - 1) + m
  {
  }

  lemma {:induction false} MulMonotone(m: nat, a: int, b: int)
    requires a <= b
    ensures m * a <= m * b
  {
    assert m * b - m * a == m * (b - a) >= 0;
  }

  lemma {:induction false} QuotientBounds(n: nat, m: nat, k: nat)
    requires m > 0
    ensures m * k <= n ==> k <= n / m
    ensures n < m * (k + 1) ==> n / m <= k
  {
    var q := n / m;
    assert m * q <= n < m * (q + 1);
    if k <= q { MulMonotone(m, k, q); } else { MulMonotone(m, q + 1, k); }
    if q <= k { MulMonotone(m, q, k); } else { MulMonotone(m, k + 1, q); }
  }

  /** Poll drain bound: at most n / budget + 1 polls, and exactly that many when no allocation fails. */
  lemma {:induction false} DrainBound(n: Net, i: Id, budget: nat, oks: nat -> nat -> bool)
    requires budget > 0
    ensures var (m, c) := Polls(n, i, budget, oks, 0);
            && m.Get(i).rxq == [] && m.Get(i).rxInt && !m.Get(i).scheduled
            && 1 <= c <= |n.Get(i).rxq| / budget + 1
            && ((forall a, b :: oks(a)(b)) ==> c == |n.Get(i).rxq| / budget + 1)
  {
    DrainSteps(n, i, budget, oks, 0);
    QuotientBounds(|n.Get(i).rxq|, budget, Polls(n, i, budget, oks, 0).1 - 1);
  }
}
