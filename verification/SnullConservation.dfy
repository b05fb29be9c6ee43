/**
 * Conservation over every run, in both modes, for every lockup setting, every
 * pattern of allocation failures and every watchdog firing.
 */
module SnullConservation {
  import opened Options
  import opened Bytes
  import opened Ethernet
  import opened SnullFrame
  import opened SnullModel
  import opened Counting

  // Occurrences are counted one arbitrary packet and one arbitrary frame at a
  // time; BufferConservation and FrameConservation turn the counts into
  // statements about whole lists.

  function Pkts(q: seq<Cell>): seq<Pkt> { seq(|q|, k requires 0 <= k < |q| => q[k].pkt) }

  function Frames(q: seq<Cell>): seq<Frame> { seq(|q|, k requires 0 <= k < |q| => q[k].frame) }

  function WireFrames(s: seq<Sent>): seq<Frame> { seq(|s|, k requires 0 <= k < |s| => s[k].frame) }

  predicate Allocated(i: Id, owned: nat, p: Pkt) { p.dev == i && p.serial < owned }

  /** A packet of sender s (device i) is exactly once in its pool or in the receiver's queue. */
  predicate BufferConserved(s: Dev, r: Dev, i: Id, owned: nat, p: Pkt) {
    Occ(s.pool, p) + Occ(Pkts(r.rxq), p) == if Allocated(i, owned, p) then 1 else 0
  }

  /** A frame sent is received by the twin, lost there for want of memory, or still queued there. */
  predicate FrameConserved(s: Dev, r: Dev, f: Frame) {
    Occ(WireFrames(s.log.sent), f) == Occ(r.log.up, f) + Occ(r.log.dropped, f) + Occ(Frames(r.rxq), f)
  }

  /** The same in numbers of frames and of octets. */
  predicate VolumeConserved(s: Dev, r: Dev) {
    && |s.log.sent| == |r.log.up| + |r.log.dropped| + |r.rxq|
    && Octets(WireFrames(s.log.sent)) == Octets(r.log.up) + Octets(r.log.dropped) + Octets(Frames(r.rxq))
  }

  /** The receive counters are the sizes of what was received and lost. */
  predicate CountersExact(d: Dev) {
    && d.stats.rxPackets == |d.log.up|
    && d.stats.rxBytes == Octets(d.log.up)
    && d.stats.rxDropped == |d.log.dropped|
  }

  // ------------------------------------------------------------- invariant

  /** Buffers on the way from device i belong to device i, so Release gives them back to it. */
  predicate Owners(s: Dev, r: Dev, i: Id) {
    (forall q | q in s.pool :: q.dev == i) && (forall c | c in r.rxq :: c.pkt.dev == i)
  }

  /** The pool sizes of a run, and the packet and frame being counted. */
  datatype Probe = Probe(owned0: nat, owned1: nat, pkt: Pkt, frame: Frame) {
    function Owned(i: Id): nat { if i then owned1 else owned0 }
  }

  predicate Link(s: Dev, r: Dev, i: Id, w: Probe) {
    && Owners(s, r, i) && BufferConserved(s, r, i, w.Owned(i), w.pkt)
    && FrameConserved(s, r, w.frame) && VolumeConserved(s, r) && CountersExact(r)
  }

  predicate Inv(n: Net, w: Probe) {
    Link(n.d0, n.d1, false, w) && Link(n.d1, n.d0, true, w)
  }

  lemma {:induction false} InitPool(i: Id, s: seq<Pkt>, p: Pkt)
    requires forall k | 0 <= k < |s| :: s[k] == Pkt(i, |s| - 1 - k)
    ensures Occ(s, p) == if Allocated(i, |s|, p) then 1 else 0
  {
    if s != [] { InitPool(i, s[1..], p); }
  }

  lemma {:induction false} InitInv(w: Probe)
    ensures Inv(Init(w.owned0, w.owned1), w)
  {
    InitPool(false, Init(w.owned0, w.owned1).d0.pool, w.pkt);
    InitPool(true, Init(w.owned0, w.owned1).d1.pool, w.pkt);
  }

  lemma {:induction false} BufferReturns(s: Dev, r: Dev, i: Id, owned: nat, p: Pkt)
    requires BufferConserved(s, r, i, owned, p) && r.rxq != []
    ensures BufferConserved(GiveBack(s, r.rxq[0].pkt), r.(rxq := r.rxq[1..]), i, owned, p)
  {
    OccConcat([r.rxq[0].pkt], s.pool, p);
    OccConcat([r.rxq[0].pkt], Pkts(r.rxq[1..]), p);
    assert Pkts(r.rxq) == [r.rxq[0].pkt] + Pkts(r.rxq[1..]);
  }

  lemma {:induction false} FrameArrives(s: Dev, r: Dev, ok: bool, f: Frame)
    requires FrameConserved(s, r, f) && r.rxq != []
    ensures FrameConserved(s, Receive(r.(rxq := r.rxq[1..]), r.rxq[0].frame, ok), f)
  {
    var g := r.rxq[0].frame;
    OccConcat(r.log.up, [g], f);
    OccConcat(r.log.dropped, [g], f);
    OccConcat([g], Frames(r.rxq[1..]), f);
    assert Frames(r.rxq) == [g] + Frames(r.rxq[1..]);
  }

  lemma {:induction false} VolumeArrives(s: Dev, r: Dev, ok: bool)
    requires VolumeConserved(s, r) && r.rxq != []
    ensures VolumeConserved(s, Receive(r.(rxq := r.rxq[1..]), r.rxq[0].frame, ok))
  {
    var g := r.rxq[0].frame;
    OctetsConcat(r.log.up, [g]);
    OctetsConcat(r.log.dropped, [g]);
    OctetsConcat([g], Frames(r.rxq[1..]));
    assert Frames(r.rxq) == [g] + Frames(r.rxq[1..]);
  }

  lemma {:induction false} VolumeDeparts(s: Dev, r: Dev, x: Sent, q: Pkt)
    requires VolumeConserved(s, r)
    ensures VolumeConserved(Record(s, x), Enqueue(r, Cell(q, x.frame)))
  {
    OctetsConcat(WireFrames(s.log.sent), [x.frame]);
    OctetsConcat([x.frame], Frames(r.rxq));
    assert WireFrames(s.log.sent + [x]) == WireFrames(s.log.sent) + [x.frame];
    assert Frames([Cell(q, x.frame)] + r.rxq) == [x.frame] + Frames(r.rxq);
  }

  lemma {:induction false} CountersFollow(r: Dev, g: Frame, ok: bool)
    requires CountersExact(r)
    ensures CountersExact(Receive(r, g, ok))
  {
    assert (r.log.up + [g])[..|r.log.up|] == r.log.up;
  }

  /** Receiving the head of the queue moves its frame to the log and its buffer to the sender's pool. */
  lemma {:induction false} ReceiveKeepsLink(s: Dev, r: Dev, i: Id, ok: bool, w: Probe)
    requires Link(s, r, i, w) && r.rxq != []
    ensures Link(GiveBack(s, r.rxq[0].pkt), Receive(r.(rxq := r.rxq[1..]), r.rxq[0].frame, ok), i, w)
  {
    BufferReturns(s, r, i, w.Owned(i), w.pkt);
    FrameArrives(s, r, ok, w.frame);
    VolumeArrives(s, r, ok);
    CountersFollow(r.(rxq := r.rxq[1..]), r.rxq[0].frame, ok);
  }

  lemma {:induction false} ReceiveHeadKeepsInv(n: Net, i: Id, ok: bool, w: Probe)
    requires Inv(n, w) && n.Get(i).rxq != []
    ensures Inv(ReceiveHead(n, i, ok), w)
  {
    var d, e, m := n.Get(i), n.Get(!i), ReceiveHead(n, i, ok);
    ReceiveKeepsLink(e, d, !i, ok, w);
    ReceiveHeadParts(n, i, ok);
    LinkCongruent(d, m.Get(i), e, m.Get(!i), i, w);
  }

  lemma {:induction false} ReceiveHeadParts(n: Net, i: Id, ok: bool)
    requires n.Get(i).rxq != [] && n.Get(i).rxq[0].pkt.dev == !i
    ensures var d := n.Get(i);
            && ReceiveHead(n, i, ok).Get(i) == Receive(d.(rxq := d.rxq[1..]), d.rxq[0].frame, ok)
            && ReceiveHead(n, i, ok).Get(!i) == GiveBack(n.Get(!i), d.rxq[0].pkt)
  {
  }

  /** A link does not see what its sender receives, nor what its receiver is given back. */
  lemma {:induction false} LinkCongruent(s: Dev, s': Dev, r: Dev, r': Dev, i: Id, w: Probe)
    requires Link(s, r, i, w)
    requires s'.pool == s.pool && s'.log.sent == s.log.sent
    requires r'.rxq == r.rxq && r'.log.up == r.log.up && r'.log.dropped == r.log.dropped
    requires r'.stats.rxPackets == r.stats.rxPackets && r'.stats.rxBytes == r.stats.rxBytes
    requires r'.stats.rxDropped == r.stats.rxDropped
    ensures Link(s', r', i, w)
  {
  }

  lemma {:induction false} PollLoopKeepsInv(
    n: Net, i: Id, budget: nat, ok: nat -> bool, done: nat, k: nat, w: Probe)
    requires Inv(n, w)
    ensures Inv(PollLoop(n, i, budget, ok, done, k).0, w)
    decreases |n.Get(i).rxq|
  {
    if done < budget && n.Get(i).rxq != [] {
      ReceiveHeadKeepsInv(n, i, ok(k), w);
      PollLoopKeepsInv(ReceiveHead(n, i, ok(k)), i, budget, ok, if ok(k) then done + 1 else done, k + 1, w);
    }
  }

  /** Devices that agree on everything the invariant speaks of. */
  predicate Same(d: Dev, e: Dev) {
    && d.pool == e.pool && d.rxq == e.rxq
    && d.log.sent == e.log.sent && d.log.up == e.log.up && d.log.dropped == e.log.dropped
    && d.stats.rxPackets == e.stats.rxPackets && d.stats.rxBytes == e.stats.rxBytes
    && d.stats.rxDropped == e.stats.rxDropped
  }

  lemma {:induction false} InvCongruent(n: Net, m: Net, w: Probe)
    requires Inv(n, w) && Same(n.d0, m.d0) && Same(n.d1, m.d1)
    ensures Inv(m, w)
  {
  }

  /** Whether an interrupt finds a packet to receive. */
  predicate Receives(cfg: Config, n: Net, i: Id) {
    !cfg.napi && n.Get(i).rxIntr && n.Get(i).rxq != []
  }

  lemma {:induction false} AckSame(d: Dev)
    ensures Same(AckTx(d), d)
  {
  }

  lemma {:induction false} NapiMovesNothing(n: Net, i: Id, j: Id)
    ensures Same(n.Get(j), NapiInterrupt(n, i).Get(j))
  {
    AckSame(n.Get(i));
    AckSame(n.Get(i).(rxInt := false, scheduled := true));
  }

  lemma {:induction false} RegularMovesHead(n: Net, i: Id, ok: bool, j: Id)
    ensures var m := if n.Get(i).rxIntr && n.Get(i).rxq != [] then ReceiveHead(n, i, ok) else n;
            Same(m.Get(j), RegularInterrupt(n, i, ok).Get(j))
  {
    AckSame(n.Get(i));
    if n.Get(i).rxIntr && n.Get(i).rxq != [] { AckSame(ReceiveHead(n, i, ok).Get(i)); }
  }

  lemma {:induction false} InterruptMovesNothingElse(cfg: Config, n: Net, i: Id, ok: bool, j: Id)
    ensures var m := if Receives(cfg, n, i) then ReceiveHead(n, i, ok) else n;
            Same(m.Get(j), Interrupt(cfg, n, i, ok).Get(j))
  {
    if cfg.napi { NapiMovesNothing(n, i, j); } else { RegularMovesHead(n, i, ok, j); }
  }

  lemma {:induction false} InterruptKeepsInv(cfg: Config, n: Net, i: Id, ok: bool, w: Probe)
    requires Inv(n, w)
    ensures Inv(Interrupt(cfg, n, i, ok), w)
  {
    InterruptMovesNothingElse(cfg, n, i, ok, false);
    InterruptMovesNothingElse(cfg, n, i, ok, true);
    if Receives(cfg, n, i) {
      ReceiveHeadKeepsInv(n, i, ok, w);
      InvCongruent(ReceiveHead(n, i, ok), Interrupt(cfg, n, i, ok), w);
    } else {
      InvCongruent(n, Interrupt(cfg, n, i, ok), w);
    }
  }

  lemma {:induction false} BufferLeaves(s: Dev, r: Dev, i: Id, g: Frame, owned: nat, p: Pkt)
    requires BufferConserved(s, r, i, owned, p) && s.pool != []
    ensures BufferConserved(TakeBuffer(s), Enqueue(r, Cell(s.pool[0], g)), i, owned, p)
  {
    OccConcat([s.pool[0]], Pkts(r.rxq), p);
    assert Pkts([Cell(s.pool[0], g)] + r.rxq) == [s.pool[0]] + Pkts(r.rxq);
  }

  lemma {:induction false} FrameDeparts(s: Dev, r: Dev, x: Sent, q: Pkt, f: Frame)
    requires FrameConserved(s, r, f)
    ensures FrameConserved(Record(s, x), Enqueue(r, Cell(q, x.frame)), f)
  {
    OccConcat(WireFrames(s.log.sent), [x.frame], f);
    OccConcat([x.frame], Frames(r.rxq), f);
    assert WireFrames(s.log.sent + [x]) == WireFrames(s.log.sent) + [x.frame];
    assert Frames([Cell(q, x.frame)] + r.rxq) == [x.frame] + Frames(r.rxq);
  }

  /** A transmission adds one frame to the sender's record and the same frame to the twin's queue. */
  lemma {:induction false} SendKeepsLink(s: Dev, r: Dev, i: Id, x: Sent, w: Probe)
    requires Link(s, r, i, w) && s.pool != []
    ensures Link(TakeBuffer(Record(s, x)), Enqueue(r, Cell(s.pool[0], x.frame)), i, w)
  {
    BufferLeaves(s, r, i, x.frame, w.Owned(i), w.pkt);
    FrameDeparts(s, r, x, s.pool[0], w.frame);
    VolumeDeparts(s, r, x, s.pool[0]);
  }

  lemma {:induction false} DeliverKeepsInv(cfg: Config, n: Net, i: Id, x: Sent, ok: bool, w: Probe)
    requires Inv(n, w) && n.Get(i).pool != []
    ensures Inv(Deliver(cfg, n.Set(i, Record(n.Get(i), x)), i, x.frame, ok), w)
  {
    var d := n.Get(i);
    SendKeepsLink(d, n.Get(!i), i, x, w);
    var n1 := n.Set(i, Record(d, x));
    var taken := n1.Set(i, TakeBuffer(n1.Get(i)));
    var queued := taken.Set(!i, Enqueue(taken.Get(!i), Cell(d.pool[0], x.frame)));
    assert Inv(queued, w);
    InterruptKeepsInv(cfg, queued.Set(!i, queued.Get(!i).(rxIntr := true)), !i, ok, w);
  }

  lemma {:induction false} FinishKeepsInv(cfg: Config, n: Net, i: Id, len: nat, ok: bool, w: Probe)
    requires Inv(n, w)
    ensures Inv(FinishTx(cfg, n, i, len, ok), w)
  {
    var m := n.Set(i, n.Get(i).(txLen := len, txIntr := true));
    InvCongruent(n, m, w);
    InterruptKeepsInv(cfg, m, i, ok, w);
    InvCongruent(n, m.Set(i, m.Get(i).(stopped := true)), w);
  }

  lemma {:induction false} TxKeepsInv(cfg: Config, n: Net, i: Id, skb: nat, frame: Frame, ok: bool, w: Probe)
    requires Inv(n, w) && Sendable(frame) && n.Get(i).pool != []
    ensures Inv(Tx(cfg, n, i, skb, frame, ok).value, w)
  {
    var x := Sent(skb, Wire(frame));
    DeliverKeepsInv(cfg, n, i, x, ok, w);
    FinishKeepsInv(cfg, Deliver(cfg, n.Set(i, Record(n.Get(i), x)), i, x.frame, ok), i, |x.frame|, ok, w);
  }

  lemma {:induction false} StepKeepsInv(cfg: Config, n: Net, s: Step, w: Probe)
    requires Inv(n, w) && Enabled(cfg, n, s) && Apply(cfg, n, s).Some?
    ensures Inv(Apply(cfg, n, s).value, w)
  {
    match s
    case TxStep(i, skb, frame, ok) => TxKeepsInv(cfg, n, i, skb, frame, ok, w);
    case PollStep(i, budget, oks) => PollLoopKeepsInv(n, i, budget, oks, 0, 0, w);
    case TimeoutStep(i) =>
      InterruptKeepsInv(cfg, n.Set(i, n.Get(i).(rxIntr := false, txIntr := true)), i, true, w);
  }

  lemma {:induction false} RunKeepsInv(cfg: Config, n: Net, steps: seq<Step>, w: Probe)
    requires Inv(n, w) && Legal(cfg, n, steps) && Run(cfg, n, steps).Some?
    ensures Inv(Run(cfg, n, steps).value, w)
    decreases |steps|
  {
    if steps != [] {
      StepKeepsInv(cfg, n, steps[0], w);
      RunKeepsInv(cfg, Apply(cfg, n, steps[0]).value, steps[1..], w);
    }
  }

  // -------------------------------------------------------------- theorems

  function AllPkts(i: Id, owned: nat): (r: set<Pkt>)
    ensures forall p :: p in r <==> Allocated(i, owned, p)
  {
    set k | 0 <= k < owned :: Pkt(i, k)
  }

  lemma {:induction false} CountAll(i: Id, owned: nat)
    ensures |AllPkts(i, owned)| == owned
  {
    if owned == 0 {
      assert AllPkts(i, owned) == {};
    } else {
      CountAll(i, owned - 1);
      assert AllPkts(i, owned) == AllPkts(i, owned - 1) + {Pkt(i, owned - 1)};
    }
  }

  lemma {:induction false} ReachableInv(cfg: Config, steps: seq<Step>, w: Probe)
    requires Legal(cfg, Init(w.owned0, w.owned1), steps) && Run(cfg, Init(w.owned0, w.owned1), steps).Some?
    ensures Inv(Run(cfg, Init(w.owned0, w.owned1), steps).value, w)
  {
    InitInv(w);
    RunKeepsInv(cfg, Init(w.owned0, w.owned1), steps, w);
  }

  /**
   * Buffer conservation: in every reachable state, the pool of a device
   * followed by the receive queue of its twin lists each packet allocated for
   * that device exactly once, and nothing else.
   */
  lemma {:induction false} BufferConservation(cfg: Config, owned0: nat, owned1: nat, steps: seq<Step>, i: Id)
    requires Legal(cfg, Init(owned0, owned1), steps) && Run(cfg, Init(owned0, owned1), steps).Some?
    ensures var n := Run(cfg, Init(owned0, owned1), steps).value;
            var owned := if i then owned1 else owned0;
            var all := n.Get(i).pool + Pkts(n.Get(!i).rxq);
            && multiset(all) == multiset(AllPkts(i, owned))
            && |n.Get(i).pool| + |n.Get(!i).rxq| == owned
            && forall a, b | 0 <= a < b < |all| :: all[a] != all[b]
  {
    var n := Run(cfg, Init(owned0, owned1), steps).value;
    var owned := if i then owned1 else owned0;
    var pool, flight := n.Get(i).pool, Pkts(n.Get(!i).rxq);
    var all := pool + flight;
    forall p: Pkt ensures multiset(all)[p] == multiset(AllPkts(i, owned))[p] {
      ReachableInv(cfg, steps, Probe(owned0, owned1, p, []));
      OccConcat(pool, flight, p);
      OccIsMultiplicity(all, p);
    }
    assert multiset(all) == multiset(AllPkts(i, owned));
    CountAll(i, owned);
    assert |all| == |multiset(all)| == |multiset(AllPkts(i, owned))| == owned;
    forall a, b | 0 <= a < b < |all| ensures all[a] != all[b] {
      Distinct(all, a, b);
    }
  }

  lemma {:induction false} FrameMultiplicity(s: Dev, r: Dev, f: Frame)
    requires FrameConserved(s, r, f)
    ensures multiset(WireFrames(s.log.sent))[f]
            == multiset(r.log.up)[f] + multiset(r.log.dropped)[f] + multiset(Frames(r.rxq))[f]
  {
    OccIsMultiplicity(WireFrames(s.log.sent), f);
    OccIsMultiplicity(r.log.up, f);
    OccIsMultiplicity(r.log.dropped, f);
    OccIsMultiplicity(Frames(r.rxq), f);
  }

  /**
   * Frame conservation: what one device sent is, frame for frame, what its twin
   * has received, has dropped for want of memory, or still has queued.
   */
  lemma {:induction false} FrameConservation(cfg: Config, owned0: nat, owned1: nat, steps: seq<Step>, i: Id)
    requires Legal(cfg, Init(owned0, owned1), steps) && Run(cfg, Init(owned0, owned1), steps).Some?
    ensures var n := Run(cfg, Init(owned0, owned1), steps).value;
            var r := n.Get(!i);
            && multiset(WireFrames(n.Get(i).log.sent))
               == multiset(r.log.up) + multiset(r.log.dropped) + multiset(Frames(r.rxq))
            && VolumeConserved(n.Get(i), r) && CountersExact(r)
  {
    var n := Run(cfg, Init(owned0, owned1), steps).value;
    var s, r := n.Get(i), n.Get(!i);
    forall f: Frame
      ensures multiset(WireFrames(s.log.sent))[f]
              == multiset(r.log.up)[f] + multiset(r.log.dropped)[f] + multiset(Frames(r.rxq))[f]
    {
      ReachableInv(cfg, steps, Probe(owned0, owned1, Pkt(i, 0), f));
      FrameMultiplicity(s, r, f);
    }
    ReachableInv(cfg, steps, Probe(owned0, owned1, Pkt(i, 0), []));
  }

  /**
   * Tearing a pool down frees what is in it, so each packet of the device is
   * freed, and freed once, exactly when none is in flight on the twin's queue.
   */
  lemma {:induction false} TeardownFreesAll(cfg: Config, owned0: nat, owned1: nat, steps: seq<Step>, i: Id)
    requires Legal(cfg, Init(owned0, owned1), steps) && Run(cfg, Init(owned0, owned1), steps).Some?
    ensures var n := Run(cfg, Init(owned0, owned1), steps).value;
            multiset(n.Get(i).pool) == multiset(AllPkts(i, if i then owned1 else owned0)) <==> n.Get(!i).rxq == []
  {
    var n := Run(cfg, Init(owned0, owned1), steps).value;
    BufferConservation(cfg, owned0, owned1, steps, i);
    var pool, flight := n.Get(i).pool, Pkts(n.Get(!i).rxq);
    assert multiset(pool + flight) == multiset(pool) + multiset(flight);
    assert |multiset(flight)| == |flight| == |n.Get(!i).rxq|;
    if n.Get(!i).rxq != [] {
      assert |multiset(pool)| != |multiset(pool + flight)|;
    }
  }
}
