/** The addresses a host learns from the reflector, over every run. */
module DummyNeighbour {
  import opened Options
  import opened Bytes
  import opened Ethernet
  import opened Reflector
  import opened Counting
  import opened DummyHw

  /** The host has received an ARP reply that binds ip to mac. */
  ghost predicate Learned(h: Hw, ip: Ip4, mac: Mac) {
    exists k | 0 <= k < |h.delivered| ::
      var r := h.delivered[k].frame;
      |r| >= ARP_END && Proto(r) == ETH_P_ARP && ArpOp(r) == 2 && ArpSpa(r) == ip && ArpSha(r) == mac
  }

  predicate IsIp(f: Frame) { |f| >= ETH_HLEN + IP_HLEN && Proto(f) == ETH_P_IP }

  /** The host sends IP frames only to a MAC it has learned for their destination. */
  ghost predicate Polite(h: Hw, steps: seq<Step>)
    requires Legal(h, steps)
    decreases |steps|
  {
    steps != [] ==>
      && (steps[0].SubmitStep? && IsIp(steps[0].frame) ==>
            Learned(h, DstIp(steps[0].frame), DstMac(steps[0].frame)))
      && Polite(Apply(h, steps[0]), steps[1..])
  }

  /** An IP frame on its way out is addressed to the synthetic MAC of its destination. */
  predicate Addressed(f: Frame) { IsIp(f) ==> DstMac(f) == FakeMac(DstIp(f)) }

  /** A frame handed to the host names its sender by the synthetic MAC. */
  predicate Consistent(r: Frame) {
    && (IsIp(r) ==> SrcMac(r) == FakeMac(SrcIp(r)))
    && (|r| >= ARP_END && Proto(r) == ETH_P_ARP ==> ArpSha(r) == FakeMac(ArpSpa(r)))
  }

  ghost predicate NeighbourInv(h: Hw) {
    && (forall x | x in h.queue :: Addressed(x.frame))
    && (h.hand.Some? ==> Addressed(h.hand.value.frame))
    && (forall x | x in h.delivered :: Consistent(x.frame))
  }

  lemma {:induction false} ReflectConsistent(f: Frame)
    requires Reflectable(f) && Addressed(f) && Reflect(f).Some?
    ensures Consistent(Reflect(f).value)
  {
    ReflectIs(f);
    if Proto(f) == ETH_P_ARP { ArpReplyAnswers(f); } else { EchoReplyCorrect(f); }
  }

  lemma {:induction false} StepNeighbour(h: Hw, s: Step)
    requires NeighbourInv(h) && Enabled(h, s)
    requires s.SubmitStep? && IsIp(s.frame) ==> Learned(h, DstIp(s.frame), DstMac(s.frame))
    ensures NeighbourInv(Apply(h, s))
  {
    match s
    case SubmitStep(cpu, f) =>
    case DequeueStep =>
    case DispatchStep(cpu) =>
      var f := h.hand.value.frame;
      if Reflect(f).Some? { ReflectConsistent(f); }
    case RequestStep(mode) =>
    case ExitStep =>
  }

  lemma {:induction false} RunNeighbour(h: Hw, steps: seq<Step>)
    requires NeighbourInv(h) && Legal(h, steps) && Polite(h, steps)
    ensures NeighbourInv(Run(h, steps))
    decreases |steps|
  {
    if steps != [] {
      StepNeighbour(h, steps[0]);
      RunNeighbour(Apply(h, steps[0]), steps[1..]);
    }
  }

  /**
   * Neighbour consistency: with a host that uses only learned addresses, every
   * echo reply it receives comes from the synthetic MAC of its source, so two
   * peers that answer from the same MAC are the same peer.
   */
  lemma {:induction false} NeighbourConsistency(ncpus: nat, steps: seq<Step>, x: Skb, y: Skb)
    requires Legal(Init(ncpus), steps) && Polite(Init(ncpus), steps)
    requires x in Run(Init(ncpus), steps).delivered && y in Run(Init(ncpus), steps).delivered
    requires IsIp(x.frame) && IsIp(y.frame)
    ensures SrcMac(x.frame) == FakeMac(SrcIp(x.frame))
    ensures SrcMac(x.frame) == SrcMac(y.frame) <==> SrcIp(x.frame) == SrcIp(y.frame)
  {
    RunNeighbour(Init(ncpus), steps);
    if SrcMac(x.frame) == SrcMac(y.frame) { FakeMacInjective(SrcIp(x.frame), SrcIp(y.frame)); }
  }
}
