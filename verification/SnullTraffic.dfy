/**
 * Accounting of transmissions: completions against submissions, skb by skb and
 * octet by octet.
 */
module SnullTraffic {
  import opened Options
  import opened Bytes
  import opened Ethernet
  import opened SnullFrame
  import opened SnullModel
  import opened Counting
  import opened SnullConservation
  import opened SnullFlow

  // ------------------------------------------------------- exact ledger

  /** Transmissions are counted, and their octets added up. */
  datatype Measure = InPackets | InOctets {
    function Of(len: nat): nat { if InPackets? then 1 else len }

    function Completed(d: Dev): nat { if InPackets? then d.stats.txPackets else d.stats.txBytes }

    function Submitted(d: Dev): nat { if InPackets? then |d.log.sent| else Octets(WireFrames(d.log.sent)) }

    /** What is waiting for its transmit interrupt. */
    function Pending(d: Dev): nat { if d.txIntr then Of(d.txLen) else 0 }

    /** Completions counted or still owed, less submissions. */
    function Balance(d: Dev): int { Completed(d) + Pending(d) - Submitted(d) }
  }

  /** What watchdog firings on device i completed that had no lost interrupt to make up for. */
  ghost function Spurious(u: Measure, cfg: Config, n: Net, steps: seq<Step>, i: Id): nat
    requires Legal(cfg, n, steps) && Run(cfg, n, steps).Some?
    decreases |steps|
  {
    if steps == [] then 0
    else
      (if steps[0] == TimeoutStep(i) && !n.Get(i).txIntr then u.Of(n.Get(i).txLen) else 0)
      + Spurious(u, cfg, Apply(cfg, n, steps[0]).value, steps[1..], i)
  }

  /** What transmissions on device i overwrote that was still waiting for its interrupt. */
  ghost function Merged(u: Measure, cfg: Config, n: Net, steps: seq<Step>, i: Id): nat
    requires Legal(cfg, n, steps) && Run(cfg, n, steps).Some?
    decreases |steps|
  {
    if steps == [] then 0
    else
      (if steps[0].TxStep? && steps[0].i == i then u.Pending(n.Get(i)) else 0)
      + Merged(u, cfg, Apply(cfg, n, steps[0]).value, steps[1..], i)
  }

  lemma {:induction false} AckBalance(u: Measure, d: Dev, e: Dev)
    ensures u.Balance(AckTx(d)) == u.Balance(d)
    ensures SameTx(d, e) ==> u.Balance(d) == u.Balance(e)
  {
  }

  lemma {:induction false} InterruptBalance(u: Measure, cfg: Config, n: Net, i: Id, ok: bool, j: Id)
    ensures u.Balance(Interrupt(cfg, n, i, ok).Get(j)) == u.Balance(n.Get(j))
  {
    InterruptAcks(cfg, n, i, ok);
    AckBalance(u, n.Get(i), n.Get(i));
    AckBalance(u, Interrupt(cfg, n, i, ok).Get(i), AckTx(n.Get(i)));
    AckBalance(u, Interrupt(cfg, n, i, ok).Get(!i), n.Get(!i));
  }

  lemma {:induction false} DeliverBalance(u: Measure, cfg: Config, n: Net, i: Id, f: Frame, ok: bool, j: Id)
    requires n.Get(i).pool != []
    ensures var m := Deliver(cfg, n, i, f, ok);
            u.Balance(m.Get(j)) == u.Balance(n.Get(j)) && u.Pending(m.Get(i)) == u.Pending(n.Get(i))
  {
    var q := Queued(cfg, n, i, f, ok);
    InterruptAcks(cfg, q, !i, ok);
    InterruptBalance(u, cfg, q, !i, ok, j);
  }

  lemma {:induction false} FinishBalance(u: Measure, cfg: Config, n: Net, i: Id, len: nat, ok: bool, j: Id)
    ensures u.Balance(FinishTx(cfg, n, i, len, ok).Get(j))
            == u.Balance(n.Get(j)) + if j == i then u.Of(len) - u.Pending(n.Get(i)) else 0
  {
    InterruptBalance(u, cfg, n.Set(i, n.Get(i).(txLen := len, txIntr := true)), i, ok, j);
  }

  lemma {:induction false} RecordBalance(u: Measure, d: Dev, x: Sent)
    ensures u.Balance(Record(d, x)) == u.Balance(d) - u.Of(|x.frame|)
    ensures u.Pending(Record(d, x)) == u.Pending(d)
  {
    assert WireFrames(d.log.sent + [x]) == WireFrames(d.log.sent) + [x.frame];
    OctetsConcat(WireFrames(d.log.sent), [x.frame]);
  }

  lemma {:induction false} TxBalance(u: Measure, cfg: Config, n: Net, i: Id, skb: nat, f: Frame, ok: bool, j: Id)
    requires Sendable(f) && n.Get(i).pool != []
    ensures u.Balance(Tx(cfg, n, i, skb, f, ok).value.Get(j))
            == u.Balance(n.Get(j)) - if j == i then u.Pending(n.Get(i)) else 0
  {
    var x := Sent(skb, Wire(f));
    var n1 := n.Set(i, Record(n.Get(i), x));
    RecordBalance(u, n.Get(i), x);
    DeliverBalance(u, cfg, n1, i, x.frame, ok, j);
    FinishBalance(u, cfg, Deliver(cfg, n1, i, x.frame, ok), i, |x.frame|, ok, j);
  }

  lemma {:induction false} TimeoutBalance(u: Measure, cfg: Config, n: Net, i: Id)
    ensures u.Balance(Timeout(cfg, n, i).Get(i))
            == u.Balance(n.Get(i)) + if n.Get(i).txIntr then 0 else u.Of(n.Get(i).txLen)
  {
    InterruptBalance(u, cfg, n.Set(i, n.Get(i).(rxIntr := false, txIntr := true)), i, true, i);
  }

  lemma {:induction false} StepBalance(u: Measure, cfg: Config, n: Net, s: Step, j: Id)
    requires Enabled(cfg, n, s) && Apply(cfg, n, s).Some?
    ensures u.Balance(Apply(cfg, n, s).value.Get(j))
            == u.Balance(n.Get(j))
               + (if s == TimeoutStep(j) && !n.Get(j).txIntr then u.Of(n.Get(j).txLen) else 0)
               - (if s.TxStep? && s.i == j then u.Pending(n.Get(j)) else 0)
  {
    match s
    case TxStep(i, skb, f, ok) => TxBalance(u, cfg, n, i, skb, f, ok, j);
    case PollStep(i, budget, oks) => PollLoopSame(n, i, budget, oks, 0, 0, j);
    case TimeoutStep(i) =>
      TimeoutBalance(u, cfg, n, i);
      TimeoutKeepsPools(cfg, n, i);
  }

  lemma {:induction false} RunBalance(u: Measure, cfg: Config, n: Net, steps: seq<Step>, i: Id)
    requires Legal(cfg, n, steps) && Run(cfg, n, steps).Some?
    ensures u.Balance(Run(cfg, n, steps).value.Get(i))
            == u.Balance(n.Get(i)) + Spurious(u, cfg, n, steps, i) - Merged(u, cfg, n, steps, i)
    decreases |steps|
  {
    if steps != [] {
      StepBalance(u, cfg, n, steps[0], i);
      RunBalance(u, cfg, Apply(cfg, n, steps[0]).value, steps[1..], i);
    }
  }

  /** What a device has seen of its twin's frames: received, dropped and still queued. */
  function Arrived(u: Measure, r: Dev): nat {
    if u.InPackets? then r.stats.rxPackets + r.stats.rxDropped + |r.rxq|
    else r.stats.rxBytes + Octets(r.log.dropped) + Octets(Frames(r.rxq))
  }

  /**
   * Traffic ledger, for every run, in packets and in octets: transmissions
   * completed, still owed and lost to overwriting equal what the twin received,
   * dropped and has queued, plus what the watchdog completed without cause.
   */
  lemma {:induction false} TrafficLedger(u: Measure, cfg: Config, owned0: nat, owned1: nat, steps: seq<Step>, i: Id)
    requires Legal(cfg, Init(owned0, owned1), steps) && Run(cfg, Init(owned0, owned1), steps).Some?
    ensures var n0 := Init(owned0, owned1);
            var n := Run(cfg, n0, steps).value;
            u.Completed(n.Get(i)) + u.Pending(n.Get(i)) + Merged(u, cfg, n0, steps, i)
            == Arrived(u, n.Get(!i)) + Spurious(u, cfg, n0, steps, i)
  {
    RunBalance(u, cfg, Init(owned0, owned1), steps, i);
    FrameConservation(cfg, owned0, owned1, steps, i);
  }

  // ------------------------------------------------------- exactly once

  function Skbs(s: seq<Sent>): seq<nat> { seq(|s|, k requires 0 <= k < |s| => s[k].skb) }

  /** Every skb submitted has been freed once, in order, except the last while its interrupt is owed. */
  predicate Settled(d: Dev) {
    && d.stats.txPackets + InPackets.Pending(d) == |d.log.sent|
    && (d.txIntr ==> d.skb.Some?)
    && d.log.freed + (if d.txIntr then [d.skb.value] else []) == Skbs(d.log.sent)
    && d.stats.txBytes + (if d.txIntr then d.txLen else 0) == Octets(WireFrames(d.log.sent))
  }

  predicate AllSettled(n: Net) { Settled(n.d0) && Settled(n.d1) }

  /** No completion is faked without one being owed, and none is overwritten. */
  ghost predicate CleanStep(n: Net, s: Step) {
    match s
    case TxStep(i, _, _, _) => !n.Get(i).txIntr
    case PollStep(_, _, _) => true
    case TimeoutStep(i) => n.Get(i).txIntr
  }

  /** Devices that agree on everything Settled speaks of. */
  predicate SameTx(d: Dev, e: Dev) {
    && d.txIntr == e.txIntr && d.skb == e.skb && d.txLen == e.txLen
    && d.stats.txPackets == e.stats.txPackets && d.stats.txBytes == e.stats.txBytes
    && d.log.sent == e.log.sent && d.log.freed == e.log.freed
  }

  lemma {:induction false} AckSettles(d: Dev)
    ensures Settled(d) ==> Settled(AckTx(d))
    ensures !d.txIntr ==> SameTx(AckTx(d), d)
  {
    assert AckTx(d).log.freed + [] == AckTx(d).log.freed;
  }

  lemma {:induction false} SettledCongruent(d: Dev, e: Dev)
    requires Settled(d) && SameTx(d, e)
    ensures Settled(e)
  {
  }

  /** Up to what Settled speaks of, an interrupt only acknowledges. */
  lemma {:induction false} InterruptAcks(cfg: Config, n: Net, i: Id, ok: bool)
    ensures SameTx(Interrupt(cfg, n, i, ok).Get(i), AckTx(n.Get(i)))
    ensures SameTx(Interrupt(cfg, n, i, ok).Get(!i), n.Get(!i))
  {
    if cfg.napi { NapiAcks(n, i); } else { RegularAcks(n, i, ok); }
  }

  lemma {:induction false} NapiAcks(n: Net, i: Id)
    ensures SameTx(NapiInterrupt(n, i).Get(i), AckTx(n.Get(i)))
    ensures SameTx(NapiInterrupt(n, i).Get(!i), n.Get(!i))
  {
    AckSameTx(n.Get(i), n.Get(i).(rxInt := false, scheduled := true));
  }

  lemma {:induction false} RegularAcks(n: Net, i: Id, ok: bool)
    ensures SameTx(RegularInterrupt(n, i, ok).Get(i), AckTx(n.Get(i)))
    ensures SameTx(RegularInterrupt(n, i, ok).Get(!i), n.Get(!i))
  {
    if n.Get(i).rxIntr && n.Get(i).rxq != [] {
      ReceiveHeadSame(n, i, ok, i);
      ReceiveHeadSame(n, i, ok, !i);
      AckSameTx(n.Get(i), ReceiveHead(n, i, ok).Get(i));
    }
  }

  lemma {:induction false} ReceiveHeadSame(n: Net, i: Id, ok: bool, j: Id)
    requires n.Get(i).rxq != []
    ensures SameTx(n.Get(j), ReceiveHead(n, i, ok).Get(j))
  {
    var d := n.Get(i);
    var r := Receive(d.(rxq := d.rxq[1..]), d.rxq[0].frame, ok);
    ReceiveSame(d, d.rxq[1..], d.rxq[0].frame, ok);
    GiveBackSame(r, d.rxq[0].pkt);
    GiveBackSame(n.Get(!i), d.rxq[0].pkt);
  }

  lemma {:induction false} ReceiveSame(d: Dev, q: seq<Cell>, f: Frame, ok: bool)
    ensures SameTx(d, Receive(d.(rxq := q), f, ok))
  {
  }

  lemma {:induction false} GiveBackSame(d: Dev, p: Pkt)
    ensures SameTx(d, GiveBack(d, p))
  {
  }

  lemma {:induction false} AckSameTx(d: Dev, e: Dev)
    requires SameTx(d, e)
    ensures SameTx(AckTx(e), AckTx(d))
  {
  }

  lemma {:induction false} InterruptSettles(cfg: Config, n: Net, i: Id, ok: bool)
    ensures Settled(n.Get(i)) ==> Settled(Interrupt(cfg, n, i, ok).Get(i))
    ensures Settled(n.Get(!i)) ==> Settled(Interrupt(cfg, n, i, ok).Get(!i))
    ensures SameTx(Interrupt(cfg, n, i, ok).Get(!i), n.Get(!i))
    ensures !Interrupt(cfg, n, i, ok).Get(i).txIntr
  {
    var m := Interrupt(cfg, n, i, ok);
    InterruptAcks(cfg, n, i, ok);
    AckSettles(n.Get(i));
    if Settled(n.Get(i)) { SettledCongruent(AckTx(n.Get(i)), m.Get(i)); }
    if Settled(n.Get(!i)) { SettledCongruent(n.Get(!i), m.Get(!i)); }
  }

  /** The state in which a delivery interrupts the twin, or would if it could. */
  lemma {:induction false} Queued(cfg: Config, n: Net, i: Id, f: Frame, ok: bool) returns (q: Net)
    requires n.Get(i).pool != []
    ensures SameTx(q.Get(i), n.Get(i)) && SameTx(q.Get(!i), n.Get(!i))
    ensures var m := Deliver(cfg, n, i, f, ok);
            m == Interrupt(cfg, q, !i, ok) || (SameTx(m.Get(i), n.Get(i)) && SameTx(m.Get(!i), n.Get(!i)))
  {
    var taken := n.Set(i, TakeBuffer(n.Get(i)));
    var queued := taken.Set(!i, Enqueue(taken.Get(!i), Cell(n.Get(i).pool[0], f)));
    q := queued.Set(!i, queued.Get(!i).(rxIntr := true));
  }

  lemma {:induction false} DeliverSettles(cfg: Config, n: Net, i: Id, f: Frame, ok: bool)
    requires n.Get(i).pool != []
    ensures SameTx(Deliver(cfg, n, i, f, ok).Get(i), n.Get(i))
    ensures Settled(n.Get(!i)) ==> Settled(Deliver(cfg, n, i, f, ok).Get(!i))
  {
    var q := Queued(cfg, n, i, f, ok);
    if Settled(n.Get(!i)) { SettledCongruent(n.Get(!i), q.Get(!i)); }
    InterruptSettles(cfg, q, !i, ok);
    if Settled(n.Get(!i)) && Deliver(cfg, n, i, f, ok) != Interrupt(cfg, q, !i, ok) {
      SettledCongruent(n.Get(!i), Deliver(cfg, n, i, f, ok).Get(!i));
    }
  }

  lemma {:induction false} RecordThenOwe(d: Dev, x: Sent)
    requires Settled(d) && !d.txIntr
    ensures Settled(Record(d, x).(txLen := |x.frame|, txIntr := true))
  {
    assert d.log.freed == Skbs(d.log.sent);
    assert Skbs(d.log.sent + [x]) == Skbs(d.log.sent) + [x.skb];
    assert WireFrames(d.log.sent + [x]) == WireFrames(d.log.sent) + [x.frame];
    OctetsConcat(WireFrames(d.log.sent), [x.frame]);
  }

  lemma {:induction false} TxSettles(cfg: Config, n: Net, i: Id, skb: nat, f: Frame, ok: bool)
    requires AllSettled(n) && Sendable(f) && n.Get(i).pool != [] && !n.Get(i).txIntr
    ensures AllSettled(Tx(cfg, n, i, skb, f, ok).value)
  {
    var x := Sent(skb, Wire(f));
    RecordThenOwe(n.Get(i), x);
    var n1 := n.Set(i, Record(n.Get(i), x));
    DeliverSettles(cfg, n1, i, x.frame, ok);
    var n2 := Deliver(cfg, n1, i, x.frame, ok);
    var n3 := n2.Set(i, n2.Get(i).(txLen := |x.frame|, txIntr := true));
    assert Settled(n3.Get(i));
    InterruptSettles(cfg, n3, i, ok);
  }

  lemma {:induction false} PollLoopSettles(n: Net, i: Id, budget: nat, ok: nat -> bool, done: nat, k: nat)
    requires AllSettled(n)
    ensures AllSettled(PollLoop(n, i, budget, ok, done, k).0)
    decreases |n.Get(i).rxq|
  {
    if done < budget && n.Get(i).rxq != [] {
      var m := ReceiveHead(n, i, ok(k));
      ReceiveHeadSame(n, i, ok(k), false);
      ReceiveHeadSame(n, i, ok(k), true);
      SettledCongruent(n.Get(false), m.Get(false));
      SettledCongruent(n.Get(true), m.Get(true));
      PollLoopSettles(m, i, budget, ok, if ok(k) then done + 1 else done, k + 1);
    }
  }

  /** From settled books, a step leaves them settled exactly when it is clean. */
  lemma {:induction false} SettledIffClean(cfg: Config, n: Net, s: Step)
    requires AllSettled(n) && Enabled(cfg, n, s) && Apply(cfg, n, s).Some?
    ensures AllSettled(Apply(cfg, n, s).value) <==> CleanStep(n, s)
  {
    StepBalance(InPackets, cfg, n, s, false);
    StepBalance(InPackets, cfg, n, s, true);
    if CleanStep(n, s) {
      match s
      case TxStep(i, skb, f, ok) => TxSettles(cfg, n, i, skb, f, ok);
      case PollStep(i, budget, oks) => PollLoopSettles(n, i, budget, oks, 0, 0);
      case TimeoutStep(i) =>
        InterruptSettles(cfg, n.Set(i, n.Get(i).(rxIntr := false, txIntr := true)), i, true);
    }
  }

  ghost predicate CleanRun(cfg: Config, n: Net, steps: seq<Step>)
    requires Legal(cfg, n, steps) && Run(cfg, n, steps).Some?
    decreases |steps|
  {
    steps != [] ==> CleanStep(n, steps[0]) && CleanRun(cfg, Apply(cfg, n, steps[0]).value, steps[1..])
  }

  /** The books are settled in every state of the run. */
  ghost predicate SettledThroughout(cfg: Config, n: Net, steps: seq<Step>)
    requires Legal(cfg, n, steps) && Run(cfg, n, steps).Some?
    decreases |steps|
  {
    AllSettled(n) && (steps != [] ==> SettledThroughout(cfg, Apply(cfg, n, steps[0]).value, steps[1..]))
  }

  /** Over runs: the books stay settled in every state exactly when every step is clean. */
  lemma {:induction false} SettledIffCleanRun(cfg: Config, n: Net, steps: seq<Step>)
    requires AllSettled(n) && Legal(cfg, n, steps) && Run(cfg, n, steps).Some?
    ensures SettledThroughout(cfg, n, steps) <==> CleanRun(cfg, n, steps)
    ensures CleanRun(cfg, n, steps) ==> AllSettled(Run(cfg, n, steps).value)
    decreases |steps|
  {
    if steps != [] {
      SettledIffClean(cfg, n, steps[0]);
      if CleanStep(n, steps[0]) { SettledIffCleanRun(cfg, Apply(cfg, n, steps[0]).value, steps[1..]); }
    }
  }

  /** Without lockup simulation no completion is ever owed between steps. */
  lemma {:induction false} NothingOwed(cfg: Config, n: Net, s: Step)
    requires cfg.lockup == 0 && !n.d0.txIntr && !n.d1.txIntr && Enabled(cfg, n, s) && Apply(cfg, n, s).Some?
    ensures !Apply(cfg, n, s).value.d0.txIntr && !Apply(cfg, n, s).value.d1.txIntr
  {
    match s
    case TxStep(i, skb, f, ok) =>
      var n1 := n.Set(i, Record(n.Get(i), Sent(skb, Wire(f))));
      DeliverOwesNothing(cfg, n1, i, Wire(f), ok);
      var n2 := Deliver(cfg, n1, i, Wire(f), ok);
      InterruptAcks(cfg, n2.Set(i, n2.Get(i).(txLen := |Wire(f)|, txIntr := true)), i, ok);
    case PollStep(i, budget, oks) =>
      PollLoopStops(n, i, budget, oks, 0, 0);
    case TimeoutStep(i) =>
      InterruptAcks(cfg, n.Set(i, n.Get(i).(rxIntr := false, txIntr := true)), i, true);
  }

  lemma {:induction false} DeliverOwesNothing(cfg: Config, n: Net, i: Id, f: Frame, ok: bool)
    requires !n.d0.txIntr && !n.d1.txIntr && n.Get(i).pool != []
    ensures var m := Deliver(cfg, n, i, f, ok); !m.d0.txIntr && !m.d1.txIntr
  {
    var taken := n.Set(i, TakeBuffer(n.Get(i)));
    var queued := taken.Set(!i, Enqueue(taken.Get(!i), Cell(n.Get(i).pool[0], f)));
    InterruptAcks(cfg, queued.Set(!i, queued.Get(!i).(rxIntr := true)), !i, ok);
  }

  lemma {:induction false} NoLockupIsClean(cfg: Config, n: Net, steps: seq<Step>)
    requires cfg.lockup == 0 && NoTimeouts(steps) && !n.d0.txIntr && !n.d1.txIntr
    requires Legal(cfg, n, steps) && Run(cfg, n, steps).Some?
    ensures CleanRun(cfg, n, steps)
    ensures !Run(cfg, n, steps).value.d0.txIntr && !Run(cfg, n, steps).value.d1.txIntr
    decreases |steps|
  {
    if steps != [] {
      assert steps[0] in steps;
      NothingOwed(cfg, n, steps[0]);
      NoLockupIsClean(cfg, Apply(cfg, n, steps[0]).value, steps[1..]);
    }
  }

  /**
   * Traffic conservation: without lockup and watchdog, after every step the
   * skbs freed are exactly those submitted, in order, and the transmit counters
   * equal what the twin received, lost and has queued, in packets and octets.
   */
  lemma {:induction false} TrafficConservation(cfg: Config, owned0: nat, owned1: nat, steps: seq<Step>, i: Id)
    requires cfg.lockup == 0 && NoTimeouts(steps)
    requires Legal(cfg, Init(owned0, owned1), steps) && Run(cfg, Init(owned0, owned1), steps).Some?
    ensures var n := Run(cfg, Init(owned0, owned1), steps).value;
            var s, r := n.Get(i), n.Get(!i);
            && s.log.freed == Skbs(s.log.sent)
            && s.stats.txPackets == r.stats.rxPackets + r.stats.rxDropped + |r.rxq|
            && s.stats.txBytes == r.stats.rxBytes + Octets(r.log.dropped) + Octets(Frames(r.rxq))
  {
    var n0 := Init(owned0, owned1);
    NoLockupIsClean(cfg, n0, steps);
    SettledIffCleanRun(cfg, n0, steps);
    FrameConservation(cfg, owned0, owned1, steps, i);
  }

  // ------------------------------------------- what the watchdog does to it

  /** Watchdog firings on device i. */
  ghost function Firings(steps: seq<Step>, i: Id): nat {
    if steps == [] then 0 else (if steps[0] == TimeoutStep(i) then 1 else 0) + Firings(steps[1..], i)
  }

  /** Those that come after device i has transmitted (started tells whether it already has). */
  ghost function LateFirings(steps: seq<Step>, i: Id, started: bool): nat {
    if steps == [] then 0
    else
      (if steps[0] == TimeoutStep(i) && started then 1 else 0)
      + LateFirings(steps[1..], i, started || (steps[0].TxStep? && steps[0].i == i))
  }

  lemma {:induction false} NoFirings(steps: seq<Step>, i: Id)
    ensures Firings(steps, i) == 0 <==> TimeoutStep(i) !in steps
  {
    if steps != [] {
      NoFirings(steps[1..], i);
      assert steps == [steps[0]] + steps[1..];
    }
  }

  /** Without lockup every firing is spurious and nothing is ever overwritten. */
  lemma {:induction false} EveryFiringSpurious(cfg: Config, n: Net, steps: seq<Step>, i: Id)
    requires cfg.lockup == 0 && !n.d0.txIntr && !n.d1.txIntr && Legal(cfg, n, steps) && Run(cfg, n, steps).Some?
    ensures Spurious(InPackets, cfg, n, steps, i) == Firings(steps, i) && Merged(InPackets, cfg, n, steps, i) == 0
    ensures !Run(cfg, n, steps).value.Get(i).txIntr
    decreases |steps|
  {
    if steps != [] {
      NothingOwed(cfg, n, steps[0]);
      EveryFiringSpurious(cfg, Apply(cfg, n, steps[0]).value, steps[1..], i);
    }
  }

  lemma {:induction false} PollLoopSame(n: Net, i: Id, budget: nat, ok: nat -> bool, done: nat, k: nat, j: Id)
    ensures SameTx(n.Get(j), PollLoop(n, i, budget, ok, done, k).0.Get(j))
    decreases |n.Get(i).rxq|
  {
    if done < budget && n.Get(i).rxq != [] {
      ReceiveHeadSame(n, i, ok(k), j);
      PollLoopSame(ReceiveHead(n, i, ok(k)), i, budget, ok, if ok(k) then done + 1 else done, k + 1, j);
    }
  }

  /** The transmit record of a device: what it was given, what it has freed, what it would free next. */
  predicate SameRecord(d: Dev, e: Dev) {
    d.log.sent == e.log.sent && d.log.freed == e.log.freed && d.skb == e.skb
  }

  /** What a step adds to the transmit record of device i: a transmission frees its skb, a firing the last one again. */
  ghost function After(d: Dev, s: Step, i: Id): Dev {
    if s.TxStep? && s.i == i && Sendable(s.frame) then
      var r := Record(d, Sent(s.skb, Wire(s.frame)));
      r.(log := r.log.(freed := r.log.freed + [s.skb]))
    else if s == TimeoutStep(i) && d.skb.Some? then
      d.(log := d.log.(freed := d.log.freed + [d.skb.value]))
    else d
  }

  lemma {:induction false} DeliverKeepsRecord(cfg: Config, n: Net, i: Id, f: Frame, ok: bool, j: Id)
    requires n.Get(i).pool != [] && !n.Get(!i).txIntr
    ensures SameRecord(Deliver(cfg, n, i, f, ok).Get(j), n.Get(j))
  {
    var taken := n.Set(i, TakeBuffer(n.Get(i)));
    var queued := taken.Set(!i, Enqueue(taken.Get(!i), Cell(n.Get(i).pool[0], f)));
    InterruptAcks(cfg, queued.Set(!i, queued.Get(!i).(rxIntr := true)), !i, ok);
  }

  /** A transmit interrupt frees the remembered skb, on the interrupted device only. */
  lemma {:induction false} InterruptFrees(cfg: Config, n: Net, i: Id, ok: bool, j: Id)
    requires n.Get(i).txIntr
    ensures var m := Interrupt(cfg, n, i, ok);
            SameRecord(m.Get(j), if j == i then CompleteTx(n.Get(i)) else n.Get(j))
  {
    InterruptAcks(cfg, n, i, ok);
  }

  lemma {:induction false} FinishFrees(cfg: Config, n: Net, i: Id, len: nat, ok: bool, j: Id)
    requires cfg.lockup == 0
    ensures SameRecord(FinishTx(cfg, n, i, len, ok).Get(j), if j == i then CompleteTx(n.Get(i)) else n.Get(j))
  {
    InterruptFrees(cfg, n.Set(i, n.Get(i).(txLen := len, txIntr := true)), i, ok, j);
  }

  lemma {:induction false} TxFrees(cfg: Config, n: Net, i: Id, skb: nat, f: Frame, ok: bool, j: Id)
    requires cfg.lockup == 0 && !n.Get(!i).txIntr && Sendable(f) && n.Get(i).pool != []
    ensures SameRecord(Tx(cfg, n, i, skb, f, ok).value.Get(j), After(n.Get(j), TxStep(i, skb, f, ok), j))
  {
    var n1 := n.Set(i, Record(n.Get(i), Sent(skb, Wire(f))));
    DeliverKeepsRecord(cfg, n1, i, Wire(f), ok, j);
    FinishFrees(cfg, Deliver(cfg, n1, i, Wire(f), ok), i, |Wire(f)|, ok, j);
  }

  /** The last skb is freed again, if there was one. */
  lemma {:induction false} TimeoutFrees(cfg: Config, n: Net, i: Id)
    ensures SameRecord(Timeout(cfg, n, i).Get(i), CompleteTx(n.Get(i)))
  {
    InterruptFrees(cfg, n.Set(i, n.Get(i).(rxIntr := false, txIntr := true)), i, true, i);
  }

  lemma {:induction false} StepFrees(cfg: Config, n: Net, s: Step, i: Id)
    requires cfg.lockup == 0 && !n.d0.txIntr && !n.d1.txIntr && Enabled(cfg, n, s) && Apply(cfg, n, s).Some?
    ensures SameRecord(Apply(cfg, n, s).value.Get(i), After(n.Get(i), s, i))
  {
    match s
    case TxStep(j, skb, f, ok) => TxFrees(cfg, n, j, skb, f, ok, i);
    case PollStep(j, budget, oks) => PollLoopSame(n, j, budget, oks, 0, 0, i);
    case TimeoutStep(j) =>
      TimeoutFrees(cfg, n, j);
      TimeoutKeepsPools(cfg, n, j);
  }

  lemma {:induction false} AfterFrees(d: Dev, s: Step, i: Id)
    requires s.TxStep? ==> Sendable(s.frame)
    ensures var e, late := After(d, s, i), s == TimeoutStep(i) && d.skb.Some?;
            && |e.log.freed| - |e.log.sent| == |d.log.freed| - |d.log.sent| + (if late then 1 else 0)
            && (!late && d.log.freed == Skbs(d.log.sent) ==> e.log.freed == Skbs(e.log.sent))
            && (e.skb.Some? <==> d.skb.Some? || (s.TxStep? && s.i == i))
  {
    if s.TxStep? && s.i == i {
      var x := Sent(s.skb, Wire(s.frame));
      assert Skbs(d.log.sent + [x]) == Skbs(d.log.sent) + [x.skb];
    }
  }

  lemma {:induction false} RunFrees(cfg: Config, n: Net, steps: seq<Step>, i: Id)
    requires cfg.lockup == 0 && !n.d0.txIntr && !n.d1.txIntr && Legal(cfg, n, steps) && Run(cfg, n, steps).Some?
    ensures var d, e, late := n.Get(i), Run(cfg, n, steps).value.Get(i), LateFirings(steps, i, n.Get(i).skb.Some?);
            && |e.log.freed| - |e.log.sent| == |d.log.freed| - |d.log.sent| + late
            && (late == 0 && d.log.freed == Skbs(d.log.sent) ==> e.log.freed == Skbs(e.log.sent))
    decreases |steps|
  {
    if steps != [] {
      var s, m := steps[0], Apply(cfg, n, steps[0]).value;
      StepFrees(cfg, n, s, i);
      NothingOwed(cfg, n, s);
      AfterFrees(n.Get(i), s, i);
      RunFrees(cfg, m, steps[1..], i);
    }
  }

  /**
   * Without lockup the traffic law is off by one packet for every watchdog
   * firing, so it holds exactly when the watchdog of the device has not fired;
   * and every skb is freed exactly once exactly when it has not fired since the
   * first transmission.
   */
  lemma {:induction false} WatchdogOvercounts(cfg: Config, owned0: nat, owned1: nat, steps: seq<Step>, i: Id)
    requires cfg.lockup == 0
    requires Legal(cfg, Init(owned0, owned1), steps) && Run(cfg, Init(owned0, owned1), steps).Some?
    ensures var n := Run(cfg, Init(owned0, owned1), steps).value;
            var s, r := n.Get(i), n.Get(!i);
            var arrived := r.stats.rxPackets + r.stats.rxDropped + |r.rxq|;
            && s.stats.txPackets == arrived + Firings(steps, i)
            && (s.stats.txPackets == arrived <==> TimeoutStep(i) !in steps)
            && (s.log.freed == Skbs(s.log.sent) <==> LateFirings(steps, i, false) == 0)
  {
    var n0 := Init(owned0, owned1);
    EveryFiringSpurious(cfg, n0, steps, i);
    TrafficLedger(InPackets, cfg, owned0, owned1, steps, i);
    NoFirings(steps, i);
    RunFrees(cfg, n0, steps, i);
  }

  // ---------------------------------------------------------------- errors

  lemma {:induction false} HeadKeepsErrors(n: Net, i: Id, ok: bool, j: Id)
    requires n.Get(i).rxq != []
    ensures ReceiveHead(n, i, ok).Get(j).stats.txErrors == n.Get(j).stats.txErrors
  {
  }

  lemma {:induction false} AckKeepsErrors(d: Dev)
    ensures AckTx(d).stats.txErrors == d.stats.txErrors
  {
  }

  lemma {:induction false} InterruptKeepsErrors(cfg: Config, n: Net, i: Id, ok: bool, j: Id)
    ensures Interrupt(cfg, n, i, ok).Get(j).stats.txErrors == n.Get(j).stats.txErrors
  {
    AckKeepsErrors(n.Get(i));
    if cfg.napi {
      AckKeepsErrors(n.Get(i).(rxInt := false, scheduled := true));
    } else if n.Get(i).rxIntr && n.Get(i).rxq != [] {
      HeadKeepsErrors(n, i, ok, j);
      AckKeepsErrors(ReceiveHead(n, i, ok).Get(i));
    }
  }

  lemma {:induction false} PollKeepsErrors(n: Net, i: Id, budget: nat, ok: nat -> bool, done: nat, k: nat, j: Id)
    ensures PollLoop(n, i, budget, ok, done, k).0.Get(j).stats.txErrors == n.Get(j).stats.txErrors
    decreases |n.Get(i).rxq|
  {
    if done < budget && n.Get(i).rxq != [] {
      HeadKeepsErrors(n, i, ok(k), j);
      PollKeepsErrors(ReceiveHead(n, i, ok(k)), i, budget, ok, if ok(k) then done + 1 else done, k + 1, j);
    }
  }

  lemma {:induction false} TxKeepsErrors(cfg: Config, n: Net, i: Id, skb: nat, f: Frame, ok: bool, j: Id)
    requires Sendable(f) && n.Get(i).pool != []
    ensures Tx(cfg, n, i, skb, f, ok).value.Get(j).stats.txErrors == n.Get(j).stats.txErrors
  {
    var n1 := n.Set(i, Record(n.Get(i), Sent(skb, Wire(f))));
    var taken := n1.Set(i, TakeBuffer(n1.Get(i)));
    var queued := taken.Set(!i, Enqueue(taken.Get(!i), Cell(n1.Get(i).pool[0], Wire(f))));
    InterruptKeepsErrors(cfg, queued.Set(!i, queued.Get(!i).(rxIntr := true)), !i, ok, j);
    var n2 := Deliver(cfg, n1, i, Wire(f), ok);
    InterruptKeepsErrors(cfg, n2.Set(i, n2.Get(i).(txLen := |Wire(f)|, txIntr := true)), i, ok, j);
  }

  lemma {:induction false} TimeoutCountsError(cfg: Config, n: Net, i: Id)
    ensures Timeout(cfg, n, i).Get(i).stats.txErrors == n.Get(i).stats.txErrors + 1
  {
    InterruptKeepsErrors(cfg, n.Set(i, n.Get(i).(rxIntr := false, txIntr := true)), i, true, i);
  }

  /** Over every run, in both modes, tx_errors counts the watchdog firings of the device and nothing else. */
  lemma {:induction false} ErrorsAreFirings(cfg: Config, n: Net, steps: seq<Step>, i: Id)
    requires Legal(cfg, n, steps) && Run(cfg, n, steps).Some?
    ensures Run(cfg, n, steps).value.Get(i).stats.txErrors == n.Get(i).stats.txErrors + Firings(steps, i)
    decreases |steps|
  {
    if steps != [] {
      match steps[0] {
        case TxStep(j, skb, f, ok) => TxKeepsErrors(cfg, n, j, skb, f, ok, i);
        case PollStep(j, budget, oks) => PollKeepsErrors(n, j, budget, oks, 0, 0, i);
        case TimeoutStep(j) =>
          TimeoutCountsError(cfg, n, j);
          TimeoutKeepsPools(cfg, n, j);
      }
      ErrorsAreFirings(cfg, Apply(cfg, n, steps[0]).value, steps[1..], i);
    }
  }

  // ------------------------------------------------------------ lost skbs

  /** The device no longer remembers skb x, and has freed it c times. */
  predicate Forgotten(d: Dev, x: nat, c: nat) { d.skb != Some(x) && Occ(d.log.freed, x) == c }

  lemma {:induction false} AckForgets(d: Dev, x: nat, c: nat)
    requires Forgotten(d, x, c)
    ensures Forgotten(AckTx(d), x, c)
  {
    if d.skb.Some? { OccConcat(d.log.freed, [d.skb.value], x); }
    OccConcat(d.log.freed, [], x);
  }

  lemma {:induction false} InterruptForgets(cfg: Config, n: Net, i: Id, ok: bool, j: Id, x: nat, c: nat)
    requires Forgotten(n.Get(j), x, c)
    ensures Forgotten(Interrupt(cfg, n, i, ok).Get(j), x, c)
  {
    InterruptAcks(cfg, n, i, ok);
    if j == i { AckForgets(n.Get(i), x, c); }
  }

  lemma {:induction false} DeliverForgets(cfg: Config, n: Net, i: Id, f: Frame, ok: bool, j: Id, x: nat, c: nat)
    requires n.Get(i).pool != [] && Forgotten(n.Get(j), x, c)
    ensures Forgotten(Deliver(cfg, n, i, f, ok).Get(j), x, c)
  {
    var q := Queued(cfg, n, i, f, ok);
    InterruptForgets(cfg, q, !i, ok, j, x, c);
  }

  lemma {:induction false} FinishForgets(cfg: Config, n: Net, i: Id, len: nat, ok: bool, j: Id, x: nat, c: nat)
    requires Forgotten(n.Get(j), x, c)
    ensures Forgotten(FinishTx(cfg, n, i, len, ok).Get(j), x, c)
  {
    InterruptForgets(cfg, n.Set(i, n.Get(i).(txLen := len, txIntr := true)), i, ok, j, x, c);
  }

  lemma {:induction false} StepForgets(cfg: Config, n: Net, s: Step, i: Id, x: nat, c: nat)
    requires Enabled(cfg, n, s) && Apply(cfg, n, s).Some? && Forgotten(n.Get(i), x, c)
    requires !(s.TxStep? && s.i == i && s.skb == x)
    ensures Forgotten(Apply(cfg, n, s).value.Get(i), x, c)
  {
    match s
    case TxStep(j, skb, f, ok) =>
      var n1 := n.Set(j, Record(n.Get(j), Sent(skb, Wire(f))));
      DeliverForgets(cfg, n1, j, Wire(f), ok, i, x, c);
      FinishForgets(cfg, Deliver(cfg, n1, j, Wire(f), ok), j, |Wire(f)|, ok, i, x, c);
    case PollStep(j, budget, oks) => PollLoopSame(n, j, budget, oks, 0, 0, i);
    case TimeoutStep(j) =>
      InterruptForgets(cfg, n.Set(j, n.Get(j).(rxIntr := false, txIntr := true)), j, true, i, x, c);
  }

  /** An skb that was overwritten is never freed again, whatever follows, unless it is submitted again. */
  lemma {:induction false} OverwrittenIsLost(cfg: Config, n: Net, steps: seq<Step>, i: Id, x: nat, c: nat)
    requires Legal(cfg, n, steps) && Run(cfg, n, steps).Some? && Forgotten(n.Get(i), x, c)
    requires forall s | s in steps :: !(s.TxStep? && s.i == i && s.skb == x)
    ensures Forgotten(Run(cfg, n, steps).value.Get(i), x, c)
    decreases |steps|
  {
    if steps != [] {
      assert steps[0] in steps;
      StepForgets(cfg, n, steps[0], i, x, c);
      OverwrittenIsLost(cfg, Apply(cfg, n, steps[0]).value, steps[1..], i, x, c);
    }
  }
}
