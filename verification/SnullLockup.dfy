/** The simulated transmitter lockup and the watchdog that recovers from it. */
module SnullLockup {
  import opened Options
  import opened Bytes
  import opened Ethernet
  import opened SnullFrame
  import opened SnullModel
  import opened Counting
  import opened SnullConservation
  import opened SnullFlow
  import opened SnullOrder
  import opened SnullTraffic

  // ------------------------------------------------------------ conditions

  /** The watchdog fires only on a stopped queue. */
  ghost predicate Patient(cfg: Config, n: Net, steps: seq<Step>)
    requires Legal(cfg, n, steps)
    decreases |steps|
  {
    steps != [] ==>
      && (steps[0].TimeoutStep? ==> n.Get(steps[0].i).stopped)
      && (Apply(cfg, n, steps[0]).Some? ==> Patient(cfg, Apply(cfg, n, steps[0]).value, steps[1..]))
  }

  /** The step brings a frame of the twin to device i while the queue of i is stopped. */
  ghost predicate Hits(n: Net, s: Step, i: Id) { s.TxStep? && s.i != i && n.Get(i).stopped }

  /** Whether a frame of the twin has arrived since the queue of i was stopped; was is the answer before step s. */
  ghost predicate HitSince(n: Net, m: Net, s: Step, i: Id, was: bool) { m.Get(i).stopped && (was || Hits(n, s, i)) }

  /** The answer after the whole run. */
  ghost predicate HitAfter(cfg: Config, n: Net, steps: seq<Step>, i: Id, was: bool)
    requires Legal(cfg, n, steps) && Run(cfg, n, steps).Some?
    decreases |steps|
  {
    if steps == [] then was
    else
      var m := Apply(cfg, n, steps[0]).value;
      HitAfter(cfg, m, steps[1..], i, HitSince(n, m, steps[0], i, was))
  }

  /** No frame of the twin arrives between a lockup of i and the firing that ends it. */
  ghost predicate Undisturbed(cfg: Config, n: Net, steps: seq<Step>, i: Id, was: bool)
    requires Legal(cfg, n, steps) && Run(cfg, n, steps).Some?
    decreases |steps|
  {
    steps != [] ==>
      var m := Apply(cfg, n, steps[0]).value;
      (steps[0] == TimeoutStep(i) ==> !was) && Undisturbed(cfg, m, steps[1..], i, HitSince(n, m, steps[0], i, was))
  }

  /** No frame of the twin ever arrives on the stopped queue of i. */
  ghost predicate NeverHit(cfg: Config, n: Net, steps: seq<Step>, i: Id)
    requires Legal(cfg, n, steps) && Run(cfg, n, steps).Some?
    decreases |steps|
  {
    steps != [] ==> !Hits(n, steps[0], i) && NeverHit(cfg, Apply(cfg, n, steps[0]).value, steps[1..], i)
  }

  // ------------------------------------------------------------- one device

  /** Stopped, with the owed completion already collected. */
  predicate Collected(d: Dev) { d.stopped && !d.txIntr }

  predicate OwedIsStopped(d: Dev) { d.txIntr ==> d.stopped }

  /**
   * errors * lockup <= packets < (errors + 1) * lockup, the upper end being
   * reached while a completion is owed, and overstepped once it is collected.
   */
  predicate Paced(d: Dev, lockup: nat) {
    var e, p := d.stats.txErrors * lockup, d.stats.txPackets;
    if Collected(d) then p == e + lockup
    else e <= p < e + lockup && (d.txIntr ==> p + 1 == e + lockup)
  }

  /** With lockup 1 every collected completion is one packet without an error, for good. */
  predicate Ahead(d: Dev, hit: bool) {
    && (!hit ==> d.stats.txPackets == d.stats.txErrors && !Collected(d))
    && (hit ==> d.stats.txPackets > d.stats.txErrors)
  }

  lemma {:induction false} DivisionFacts(p: nat, e: nat, m: nat)
    requires e * m <= p < e * m + m
    ensures p / m == e
    ensures (p + 1) % m == 0 <==> p + 1 == e * m + m
  {
    var r := p - e * m;
    assert p == e * m + r && 0 <= r < m;
    DivModUnique(p, e, r, m);
    if r + 1 == m {
      assert p + 1 == (e + 1) * m;
      DivModUnique(p + 1, e + 1, 0, m);
    } else {
      DivModUnique(p + 1, e, r + 1, m);
    }
  }

  lemma {:induction false} DivModUnique(p: nat, q: nat, r: nat, m: nat)
    requires m > 0 && p == q * m + r && r < m
    ensures p / m == q && p % m == r
  {
    QuotientBounds(p, m, q);
    assert m * (q + 1) == q * m + m;
  }

  predicate LosesInterrupt(cfg: Config, d: Dev) {
    cfg.lockup > 0 && (d.stats.txPackets + 1) % cfg.lockup == 0
  }

  /** A whole regular-mode transmission: the twin receives, the sender completes or is locked up. */
  lemma {:induction false} RegularTxExact(cfg: Config, n: Net, i: Id, skb: nat, f: Frame, ok: bool)
    requires !cfg.napi && AllAttended(cfg, n) && AllOwners(n)
    requires Sendable(f) && n.Get(i).pool != [] && !n.Get(i).stopped
    ensures var m := Tx(cfg, n, i, skb, f, ok).value;
            var d := Record(n.Get(i), Sent(skb, Wire(f))).(txLen := |Wire(f)|, txIntr := true);
            && m.Get(i) == (if LosesInterrupt(cfg, n.Get(i)) then d.(stopped := true) else AckTx(d))
            && m.Get(!i) == AckTx(Receive(n.Get(!i), Wire(f), ok))
  {
    RegularDeliver(cfg, n.Set(i, Record(n.Get(i), Sent(skb, Wire(f)))), i, Wire(f), ok);
  }

  /** The device sends, is sent to, or its watchdog fires: from d to e. */
  ghost predicate Moves(cfg: Config, s: Step, i: Id, d: Dev, e: Dev) {
    match s
    case TxStep(j, _, _, _) =>
      if j != i then Counts(d, e, InPackets.Pending(d), 0) && e.stopped == d.stopped && !e.txIntr
      else if LosesInterrupt(cfg, d) then Counts(d, e, 0, 0) && e.stopped && e.txIntr
      else Counts(d, e, 1, 0) && !e.stopped && !e.txIntr
    case PollStep(_, _, _) => false
    case TimeoutStep(j) => if j != i then e == d else Counts(d, e, 1, 1) && !e.stopped && !e.txIntr
  }

  predicate Counts(d: Dev, e: Dev, packets: nat, errors: nat) {
    && e.stats.txPackets == d.stats.txPackets + packets
    && e.stats.txErrors == d.stats.txErrors + errors
  }

  lemma {:induction false} StepMoves(cfg: Config, n: Net, s: Step, i: Id)
    requires !cfg.napi && AllAttended(cfg, n) && AllOwners(n) && Enabled(cfg, n, s) && Apply(cfg, n, s).Some?
    ensures Moves(cfg, s, i, n.Get(i), Apply(cfg, n, s).value.Get(i))
  {
    match s
    case TxStep(j, skb, f, ok) => RegularTxExact(cfg, n, j, skb, f, ok);
    case TimeoutStep(j) => TimeoutKeepsPools(cfg, n, j);
  }

  /** The flag kept by HitSince is what has become of the device. */
  lemma {:induction false} HitIsCollected(cfg: Config, n: Net, s: Step, i: Id)
    requires !cfg.napi && AllAttended(cfg, n) && AllOwners(n) && Enabled(cfg, n, s) && Apply(cfg, n, s).Some?
    requires OwedIsStopped(n.Get(i)) && (s.TimeoutStep? ==> n.Get(s.i).stopped)
    ensures var m := Apply(cfg, n, s).value;
            OwedIsStopped(m.Get(i)) && HitSince(n, m, s, i, Collected(n.Get(i))) == Collected(m.Get(i))
  {
    StepMoves(cfg, n, s, i);
  }

  lemma {:induction false} MovesPaced(cfg: Config, s: Step, i: Id, d: Dev, e: Dev)
    requires cfg.lockup >= 2 && Moves(cfg, s, i, d, e) && OwedIsStopped(d) && Paced(d, cfg.lockup)
    requires (s == TimeoutStep(i) ==> d.stopped) && (s.TxStep? && s.i == i ==> !d.stopped)
    ensures Paced(e, cfg.lockup)
  {
    var c, l := d.stats.txErrors, cfg.lockup;
    assert (c + 1) * l == c * l + l;
    if s.TxStep? && s.i == i { DivisionFacts(d.stats.txPackets, c, l); }
  }

  lemma {:induction false} StepPaced(cfg: Config, n: Net, s: Step, i: Id)
    requires !cfg.napi && cfg.lockup >= 2 && AllAttended(cfg, n) && AllOwners(n)
    requires Enabled(cfg, n, s) && Apply(cfg, n, s).Some? && (s.TimeoutStep? ==> n.Get(s.i).stopped)
    requires OwedIsStopped(n.Get(i)) && Paced(n.Get(i), cfg.lockup)
    ensures Paced(Apply(cfg, n, s).value.Get(i), cfg.lockup)
  {
    StepMoves(cfg, n, s, i);
    MovesPaced(cfg, s, i, n.Get(i), Apply(cfg, n, s).value.Get(i));
  }

  lemma {:induction false} StepAhead(cfg: Config, n: Net, s: Step, i: Id, hit: bool)
    requires !cfg.napi && cfg.lockup == 1 && AllAttended(cfg, n) && AllOwners(n)
    requires Enabled(cfg, n, s) && Apply(cfg, n, s).Some? && (s.TimeoutStep? ==> n.Get(s.i).stopped)
    requires OwedIsStopped(n.Get(i)) && Ahead(n.Get(i), hit)
    ensures Ahead(Apply(cfg, n, s).value.Get(i), hit || Hits(n, s, i))
  {
    StepMoves(cfg, n, s, i);
  }

  // ------------------------------------------------------------------ runs

  lemma {:induction false} RunBooks(cfg: Config, n: Net, steps: seq<Step>, w: Probe)
    requires !cfg.napi && AllAttended(cfg, n) && Inv(n, w) && OwedIsStopped(n.d0) && OwedIsStopped(n.d1)
    requires Legal(cfg, n, steps) && Patient(cfg, n, steps) && Run(cfg, n, steps).Some?
    ensures CleanRun(cfg, n, steps) <==>
              && Undisturbed(cfg, n, steps, false, Collected(n.d0))
              && Undisturbed(cfg, n, steps, true, Collected(n.d1))
    decreases |steps|
  {
    if steps != [] {
      HitIsCollected(cfg, n, steps[0], false);
      HitIsCollected(cfg, n, steps[0], true);
      StepAttended(cfg, n, steps[0]);
      StepKeepsInv(cfg, n, steps[0], w);
      RunBooks(cfg, Apply(cfg, n, steps[0]).value, steps[1..], w);
    }
  }

  lemma {:induction false} RunPaced(cfg: Config, n: Net, steps: seq<Step>, i: Id, hit: bool, w: Probe)
    requires !cfg.napi && cfg.lockup > 0 && AllAttended(cfg, n) && Inv(n, w) && OwedIsStopped(n.Get(i))
    requires if cfg.lockup >= 2 then Paced(n.Get(i), cfg.lockup) else Ahead(n.Get(i), hit)
    requires Legal(cfg, n, steps) && Patient(cfg, n, steps) && Run(cfg, n, steps).Some?
    ensures var d := Run(cfg, n, steps).value.Get(i);
            && OwedIsStopped(d) && HitAfter(cfg, n, steps, i, Collected(n.Get(i))) == Collected(d)
            && if cfg.lockup >= 2 then Paced(d, cfg.lockup)
               else Ahead(d, hit || !NeverHit(cfg, n, steps, i))
    decreases |steps|
  {
    if steps != [] {
      var s, m := steps[0], Apply(cfg, n, steps[0]).value;
      HitIsCollected(cfg, n, s, i);
      if cfg.lockup >= 2 { StepPaced(cfg, n, s, i); } else { StepAhead(cfg, n, s, i, hit); }
      StepAttended(cfg, n, s);
      StepKeepsInv(cfg, n, s, w);
      RunPaced(cfg, m, steps[1..], i, hit || Hits(n, s, i), w);
    }
  }

  lemma {:induction false} InitLockup(cfg: Config, owned0: nat, owned1: nat, w: Probe)
    requires cfg.lockup > 0 && w.owned0 == owned0 && w.owned1 == owned1
    ensures var n := Init(owned0, owned1);
            && AllAttended(cfg, n) && AllSettled(n) && Inv(n, w)
            && (forall i :: OwedIsStopped(n.Get(i)) && !Collected(n.Get(i)))
            && (forall i :: Paced(n.Get(i), cfg.lockup) && Ahead(n.Get(i), false))
  {
    InitInv(w);
  }

  /**
   * In regular mode with a watchdog that fires only on stopped queues, and any
   * traffic in both directions: no run crashes, and every skb is freed exactly
   * once and every transmit counter right in every state if and only if no frame
   * of the twin arrives between a lockup and the firing that ends it.
   */
  lemma {:induction false} LockupBooks(cfg: Config, owned0: nat, owned1: nat, steps: seq<Step>)
    requires !cfg.napi && cfg.lockup > 0 && owned0 >= 1 && owned1 >= 1
    requires Legal(cfg, Init(owned0, owned1), steps) && Patient(cfg, Init(owned0, owned1), steps)
    ensures Run(cfg, Init(owned0, owned1), steps).Some?
    ensures var n := Init(owned0, owned1);
            SettledThroughout(cfg, n, steps) <==>
              Undisturbed(cfg, n, steps, false, false) && Undisturbed(cfg, n, steps, true, false)
  {
    var n, w := Init(owned0, owned1), Probe(owned0, owned1, Pkt(false, 0), []);
    RegularNeverCrashes(cfg, owned0, owned1, steps);
    InitLockup(cfg, owned0, owned1, w);
    assert !Collected(n.Get(false)) && !Collected(n.Get(true));
    RunBooks(cfg, n, steps, w);
    SettledIffCleanRun(cfg, n, steps);
  }

  /**
   * And tx_errors is tx_packets / lockup exactly when no frame of the twin has
   * arrived since the queue was stopped (with lockup 1: has ever arrived on the
   * stopped queue).
   */
  lemma {:induction false} LockupRate(cfg: Config, owned0: nat, owned1: nat, steps: seq<Step>, i: Id)
    requires !cfg.napi && cfg.lockup > 0 && owned0 >= 1 && owned1 >= 1
    requires Legal(cfg, Init(owned0, owned1), steps) && Patient(cfg, Init(owned0, owned1), steps)
    ensures Run(cfg, Init(owned0, owned1), steps).Some?
    ensures var n := Init(owned0, owned1);
            var s := Run(cfg, n, steps).value.Get(i).stats;
            s.txErrors == s.txPackets / cfg.lockup <==>
              if cfg.lockup >= 2 then !HitAfter(cfg, n, steps, i, false) else NeverHit(cfg, n, steps, i)
  {
    var n, w := Init(owned0, owned1), Probe(owned0, owned1, Pkt(false, 0), []);
    RegularNeverCrashes(cfg, owned0, owned1, steps);
    InitLockup(cfg, owned0, owned1, w);
    assert !Collected(n.Get(i)) && OwedIsStopped(n.Get(i)) && Paced(n.Get(i), cfg.lockup) && Ahead(n.Get(i), false);
    RunPaced(cfg, n, steps, i, false, w);
    RateIff(Run(cfg, n, steps).value.Get(i), cfg.lockup);
  }

  lemma {:induction false} RateIff(d: Dev, lockup: nat)
    requires lockup > 0
    ensures lockup >= 2 && Paced(d, lockup) ==> (d.stats.txErrors == d.stats.txPackets / lockup <==> !Collected(d))
    ensures lockup == 1 ==> d.stats.txPackets / lockup == d.stats.txPackets
  {
    var e, p := d.stats.txErrors, d.stats.txPackets;
    if lockup >= 2 && Paced(d, lockup) {
      assert (e + 1) * lockup == e * lockup + lockup;
      DivisionFacts(p, if Collected(d) then e + 1 else e, lockup);
    }
  }

  // -------------------------------------------------------- one direction

  ghost predicate OnlySends(steps: seq<Step>, i: Id) { forall s | s in steps :: s.TxStep? ==> s.i == i }

  /** Then the twin is never stopped and device i never hit. */
  lemma {:induction false} OneWayUndisturbed(cfg: Config, n: Net, steps: seq<Step>, i: Id, w: Probe)
    requires !cfg.napi && AllAttended(cfg, n) && Inv(n, w) && !n.Get(!i).stopped && !n.Get(!i).txIntr
    requires Legal(cfg, n, steps) && Patient(cfg, n, steps) && Run(cfg, n, steps).Some? && OnlySends(steps, i)
    ensures Undisturbed(cfg, n, steps, i, false) && Undisturbed(cfg, n, steps, !i, false)
    ensures !HitAfter(cfg, n, steps, i, false) && NeverHit(cfg, n, steps, i)
    decreases |steps|
  {
    if steps != [] {
      assert steps[0] in steps;
      StepMoves(cfg, n, steps[0], !i);
      StepAttended(cfg, n, steps[0]);
      StepKeepsInv(cfg, n, steps[0], w);
      OneWayUndisturbed(cfg, Apply(cfg, n, steps[0]).value, steps[1..], i, w);
    }
  }

  /**
   * Lockup arithmetic: with one-directional traffic in regular mode and a
   * watchdog that fires only on a stopped queue, no run crashes, every skb is
   * freed exactly once, the queue is stopped exactly while a completion is
   * owed, and tx_errors is tx_packets / lockup.
   */
  lemma {:induction false} LockupArithmetic(cfg: Config, owned0: nat, owned1: nat, steps: seq<Step>, i: Id)
    requires !cfg.napi && cfg.lockup > 0 && owned0 >= 1 && owned1 >= 1 && OnlySends(steps, i)
    requires Legal(cfg, Init(owned0, owned1), steps) && Patient(cfg, Init(owned0, owned1), steps)
    ensures Run(cfg, Init(owned0, owned1), steps).Some?
    ensures var d := Run(cfg, Init(owned0, owned1), steps).value.Get(i);
            && Settled(d)
            && (d.stopped <==> d.txIntr)
            && d.stats.txErrors == d.stats.txPackets / cfg.lockup
  {
    var n, w := Init(owned0, owned1), Probe(owned0, owned1, Pkt(false, 0), []);
    LockupRate(cfg, owned0, owned1, steps, i);
    LockupBooks(cfg, owned0, owned1, steps);
    InitLockup(cfg, owned0, owned1, w);
    assert !Collected(n.Get(i)) && OwedIsStopped(n.Get(i)) && Paced(n.Get(i), cfg.lockup) && Ahead(n.Get(i), false);
    OneWayUndisturbed(cfg, n, steps, i, w);
    SettledIffCleanRun(cfg, n, steps);
    RunPaced(cfg, n, steps, i, false, w);
  }

  // --------------------------------------------------------------- failures

  /**
   * With traffic in both directions the law fails: a frame from the twin
   * collects the owed completion, the queue stays stopped, and the watchdog then
   * frees the same skb a second time.
   */
  lemma {:induction false} CrossTrafficFreesTwice(cfg: Config, n: Net, i: Id, skb: nat, f: Frame, ok: bool)
    requires !cfg.napi && AllAttended(cfg, n) && AllOwners(n)
    requires n.Get(i).stopped && n.Get(i).txIntr && n.Get(i).skb.Some?
    requires Sendable(f) && n.Get(!i).pool != [] && !n.Get(!i).stopped
    ensures var m := Tx(cfg, n, !i, skb, f, ok).value;
            && m.Get(i).stopped && !m.Get(i).txIntr
            && Timeout(cfg, m, i).Get(i).log.sent == n.Get(i).log.sent
            && Timeout(cfg, m, i).Get(i).log.freed == n.Get(i).log.freed + [n.Get(i).skb.value, n.Get(i).skb.value]
  {
    var n1 := n.Set(!i, Record(n.Get(!i), Sent(skb, Wire(f))));
    RegularDeliver(cfg, n1, !i, Wire(f), ok);
    var x := n.Get(i).skb.value;
    assert n.Get(i).log.freed + [x] + [x] == n.Get(i).log.freed + [x, x];
  }

  lemma {:induction false} PatientCons(cfg: Config, n: Net, s: Step, rest: seq<Step>)
    requires Enabled(cfg, n, s) && Apply(cfg, n, s).Some? && (s.TimeoutStep? ==> n.Get(s.i).stopped)
    requires Legal(cfg, Apply(cfg, n, s).value, rest) && Patient(cfg, Apply(cfg, n, s).value, rest)
    ensures Legal(cfg, n, [s] + rest) && Patient(cfg, n, [s] + rest)
    ensures Run(cfg, n, [s] + rest) == Run(cfg, Apply(cfg, n, s).value, rest)
  {
    assert ([s] + rest)[1..] == rest;
  }

  /** The first transmission from boot with lockup 1 leaves its completion owed. */
  lemma {:induction false} FirstLockup(x: nat, f: Frame, ok: bool)
    requires Sendable(f)
    ensures var cfg, n0 := Config(false, 1), Init(1, 1);
            var n := Tx(cfg, n0, false, x, f, ok).value;
            && n.d0.stopped && n.d0.txIntr && n.d0.skb == Some(x)
            && n.d0.log.sent == [Sent(x, Wire(f))] && n.d0.log.freed == []
            && n.d1.pool != [] && !n.d1.stopped && AllAttended(cfg, n) && AllOwners(n)
  {
    var cfg, n0 := Config(false, 1), Init(1, 1);
    RegularTxExact(cfg, n0, false, x, f, ok);
    StepAttended(cfg, n0, TxStep(false, x, f, ok));
    assert [] + [Sent(x, Wire(f))] == [Sent(x, Wire(f))];
  }

  /** Such a run from boot: a lockup on one side, a frame from the other, the watchdog. */
  lemma {:induction false} DoubleFreeRun(x: nat, f: Frame, ok: bool, y: nat, g: Frame, ok': bool)
    requires Sendable(f) && Sendable(g)
    ensures var cfg := Config(false, 1);
            var steps := [TxStep(false, x, f, ok), TxStep(true, y, g, ok'), TimeoutStep(false)];
            && Legal(cfg, Init(1, 1), steps) && Patient(cfg, Init(1, 1), steps) && Run(cfg, Init(1, 1), steps).Some?
            && var d := Run(cfg, Init(1, 1), steps).value.d0;
               d.log.sent == [Sent(x, Wire(f))] && d.log.freed == [x, x]
  {
    FirstLockup(x, f, ok);
    var cfg, n0, n1 := Config(false, 1), Init(1, 1), Tx(Config(false, 1), Init(1, 1), false, x, f, ok).value;
    CrossTrafficFreesTwice(cfg, n1, false, y, g, ok');
    var n2 := Tx(cfg, n1, true, y, g, ok').value;
    var s1, s2, s3 := TxStep(false, x, f, ok), TxStep(true, y, g, ok'), TimeoutStep(false);
    PatientCons(cfg, n2, s3, []);
    PatientCons(cfg, n1, s2, [s3]);
    PatientCons(cfg, n0, s1, [s2, s3]);
    assert [s1] + [s2, s3] == [s1, s2, s3] && [s2] + [s3] == [s2, s3] && [s3] + [] == [s3];
    assert [] + [x, x] == [x, x];
  }

  /**
   * In NAPI mode a poll of the twin wakes the queue while a completion is still
   * owed, and the next transmission overwrites the skb that is waiting for it.
   */
  lemma {:induction false} OverwriteRun(
    x: nat, f: Frame, ok: bool, budget: nat, oks: nat -> bool, y: nat, g: Frame, ok': bool)
    requires Sendable(f) && Sendable(g) && budget > 0
    ensures var cfg := Config(true, 1);
            var steps := [TxStep(false, x, f, ok), PollStep(true, budget, oks), TxStep(false, y, g, ok')];
            && Legal(cfg, Init(1, 1), steps) && Run(cfg, Init(1, 1), steps).Some?
            && var d := Run(cfg, Init(1, 1), steps).value.d0;
               d.log.sent == [Sent(x, Wire(f)), Sent(y, Wire(g))] && d.log.freed == [] && d.skb == Some(y)
  {
    var cfg, n0 := Config(true, 1), Init(1, 1);
    var s1, s2, s3 := TxStep(false, x, f, ok), PollStep(true, budget, oks), TxStep(false, y, g, ok');
    OverwriteFirst(x, f, ok);
    var n1 := Apply(cfg, n0, s1).value;
    OverwriteWakes(n1, budget, oks);
    var n2 := Apply(cfg, n1, s2).value;
    OverwriteAgain(n2, y, g, ok');
    RunCons(cfg, n2, s3, []);
    RunCons(cfg, n1, s2, [s3]);
    RunCons(cfg, n0, s1, [s2, s3]);
    assert [s1] + [s2, s3] == [s1, s2, s3] && [s2] + [s3] == [s2, s3] && [s3] + [] == [s3];
    assert [Sent(x, Wire(f))] + [Sent(y, Wire(g))] == [Sent(x, Wire(f)), Sent(y, Wire(g))];
  }

  lemma {:induction false} OverwriteFirst(x: nat, f: Frame, ok: bool)
    requires Sendable(f)
    ensures var r := Tx(Config(true, 1), Init(1, 1), false, x, f, ok);
            && r.Some?
            && var d, e := r.value.d0, r.value.d1;
               && d.pool == [] && d.stopped && d.txIntr && d.stats.txPackets == 0
               && d.log.sent == [Sent(x, Wire(f))] && d.log.freed == []
               && e.scheduled && |e.rxq| == 1 && e.rxq[0].pkt.dev == false
  {
  }

  lemma {:induction false} OverwriteWakes(n: Net, budget: nat, oks: nat -> bool)
    requires budget > 0 && |n.d1.rxq| == 1 && n.d1.rxq[0].pkt.dev == false && n.d0.pool == []
    ensures var d := Poll(n, true, budget, oks).0.d0;
            d.pool != [] && !d.stopped && SameTx(n.d0, d)
  {
    var n' := ReceiveHead(n, true, oks(0));
    PollLoopSame(n, true, budget, oks, 0, 0, false);
    assert n'.d1.rxq == [];
    assert PollLoop(n', true, budget, oks, if oks(0) then 1 else 0, 1).0 == n';
  }

  lemma {:induction false} OverwriteAgain(n: Net, y: nat, g: Frame, ok: bool)
    requires Sendable(g) && n.d0.pool != [] && n.d0.stats.txPackets == 0
    ensures var r := Tx(Config(true, 1), n, false, y, g, ok);
            && r.Some?
            && var d := r.value.d0;
               && d.log.sent == n.d0.log.sent + [Sent(y, Wire(g))] && d.log.freed == n.d0.log.freed
               && d.skb == Some(y)
  {
  }

  /** The skb overwritten there is never freed, however the run goes on. */
  lemma {:induction false} SkbLeaks(
    x: nat, f: Frame, ok: bool, budget: nat, oks: nat -> bool, y: nat, g: Frame, ok': bool, more: seq<Step>)
    requires Sendable(f) && Sendable(g) && budget > 0 && x != y
    requires var cfg := Config(true, 1);
             var steps := [TxStep(false, x, f, ok), PollStep(true, budget, oks), TxStep(false, y, g, ok')];
             && Legal(cfg, Init(1, 1), steps) && Run(cfg, Init(1, 1), steps).Some?
             && var n := Run(cfg, Init(1, 1), steps).value;
                Legal(cfg, n, more) && Run(cfg, n, more).Some?
    requires forall s | s in more :: !(s.TxStep? && s.i == false && s.skb == x)
    ensures var cfg := Config(true, 1);
            var steps := [TxStep(false, x, f, ok), PollStep(true, budget, oks), TxStep(false, y, g, ok')];
            x !in Run(cfg, Run(cfg, Init(1, 1), steps).value, more).value.d0.log.freed
  {
    var cfg := Config(true, 1);
    var steps := [TxStep(false, x, f, ok), PollStep(true, budget, oks), TxStep(false, y, g, ok')];
    OverwriteRun(x, f, ok, budget, oks, y, g, ok');
    OverwrittenIsLost(cfg, Run(cfg, Init(1, 1), steps).value, more, false, x, 0);
    OccIsMultiplicity(Run(cfg, Run(cfg, Init(1, 1), steps).value, more).value.d0.log.freed, x);
  }
}
