/** The per-CPU statistics of the dummy driver against what went through it. */
module DummyStats {
  import opened Options
  import opened Bytes
  import opened Ethernet
  import opened Reflector
  import opened Counting
  import opened DummyHw

  function Sum(cpus: seq<Counters>): Counters {
    if cpus == [] then Counters(0, 0, 0, 0) else cpus[0].Plus(Sum(cpus[1..]))
  }

  lemma {:induction false} SumPlus(cpus: seq<Counters>, i: nat, c: Counters)
    requires i < |cpus|
    ensures Sum(cpus[i := cpus[i].Plus(c)]) == Sum(cpus).Plus(c)
  {
    if i > 0 {
      SumPlus(cpus[1..], i - 1, c);
      assert cpus[i := cpus[i].Plus(c)][1..] == cpus[1..][i - 1 := cpus[1..][i - 1].Plus(c)];
    } else {
      assert cpus[i := cpus[i].Plus(c)][1..] == cpus[1..];
    }
  }

  lemma {:induction false} SumZero(n: nat)
    ensures Sum(seq(n, _ => Counters(0, 0, 0, 0))) == Counters(0, 0, 0, 0)
  {
    var s := seq(n, _ => Counters(0, 0, 0, 0));
    if n > 0 {
      assert s[1..] == seq(n - 1, _ => Counters(0, 0, 0, 0));
      SumZero(n - 1);
    }
  }

  /** The per-CPU counters add up to what was submitted and delivered, and octets are conserved. */
  ghost predicate StatsExact(h: Hw) {
    && Sum(h.cpus)
       == Counters(|h.delivered|, Octets(FramesOf(h.delivered)), |h.submitted|, Octets(h.submitted))
    && |h.submitted| == |h.queue| + |InHand(h)| + |h.delivered| + |h.freed|
    && Octets(h.submitted) == Octets(FramesOf(h.queue)) + Octets(FramesOf(InHand(h)))
                              + Octets(FramesOf(h.delivered)) + Octets(FramesOf(h.freed))
  }

  lemma {:induction false} FramesConcat(a: seq<Skb>, b: seq<Skb>)
    ensures FramesOf(a + b) == FramesOf(a) + FramesOf(b)
    ensures Octets(FramesOf(a + b)) == Octets(FramesOf(a)) + Octets(FramesOf(b))
  {
    assert FramesOf(a + b) == FramesOf(a) + FramesOf(b);
    OctetsConcat(FramesOf(a), FramesOf(b));
  }

  lemma {:induction false} OctetsOne(x: Skb)
    ensures Octets(FramesOf([x])) == |x.frame|
  {
    assert FramesOf([x]) == [x.frame];
    assert [x.frame][..0] == [];
  }

  lemma {:induction false} SubmitStats(h: Hw, cpu: nat, f: Frame)
    requires StatsExact(h) && cpu < |h.cpus|
    ensures StatsExact(Submit(h, cpu, f))
  {
    var x := Skb(|h.submitted|, f);
    SumPlus(h.cpus, cpu, Counters(0, 0, 1, |f|));
    FramesConcat(h.queue, [x]);
    OctetsOne(x);
    assert (h.submitted + [f])[..|h.submitted|] == h.submitted;
  }

  lemma {:induction false} DequeueStats(h: Hw)
    requires StatsExact(h) && h.hand.None?
    ensures StatsExact(Dequeue(h))
  {
    if h.queue != [] {
      assert h.queue == [h.queue[0]] + h.queue[1..];
      FramesConcat([h.queue[0]], h.queue[1..]);
    }
  }

  lemma {:induction false} DispatchStats(h: Hw, cpu: nat)
    requires StatsExact(h) && Enabled(h, DispatchStep(cpu))
    ensures StatsExact(Dispatch(h, cpu))
  {
    var skb, r := h.hand.value, Reflect(h.hand.value.frame);
    OctetsOne(skb);
    if h.registered && r.Some? {
      DeliverStats(h, cpu, Skb(skb.ticket, r.value));
    } else {
      FramesConcat(h.freed, [skb]);
    }
  }

  lemma {:induction false} DeliverStats(h: Hw, cpu: nat, y: Skb)
    requires StatsExact(h) && cpu < |h.cpus| && h.hand.Some? && |y.frame| == |h.hand.value.frame|
    ensures StatsExact(Count(h, cpu, Counters(1, |y.frame|, 0, 0)).(hand := None, delivered := h.delivered + [y]))
  {
    FramesConcat(h.delivered, [y]);
    OctetsOne(y);
    OctetsOne(h.hand.value);
    SumPlus(h.cpus, cpu, Counters(1, |y.frame|, 0, 0));
  }

  lemma {:induction false} StepStats(h: Hw, s: Step)
    requires StatsExact(h) && Enabled(h, s)
    ensures StatsExact(Apply(h, s))
  {
    match s
    case SubmitStep(cpu, f) => SubmitStats(h, cpu, f);
    case DequeueStep => DequeueStats(h);
    case DispatchStep(cpu) => DispatchStats(h, cpu);
    case RequestStep(mode) => FramesConcat(h.freed, h.queue);
    case ExitStep => FramesConcat(h.freed, h.queue);
  }

  lemma {:induction false} RunStats(h: Hw, steps: seq<Step>)
    requires StatsExact(h) && Legal(h, steps)
    ensures StatsExact(Run(h, steps))
    decreases |steps|
  {
    if steps != [] {
      StepStats(h, steps[0]);
      RunStats(Apply(h, steps[0]), steps[1..]);
    }
  }

  /**
   * Statistics refinement: whichever CPUs the steps ran on, the summed counters
   * are the global counts and octet totals, and never more comes back than went out.
   */
  lemma {:induction false} Statistics(ncpus: nat, steps: seq<Step>)
    requires Legal(Init(ncpus), steps)
    ensures var h := Run(Init(ncpus), steps);
            var sum := Sum(h.cpus);
            && sum == Counters(|h.delivered|, Octets(FramesOf(h.delivered)), |h.submitted|, Octets(h.submitted))
            && sum.rxPackets <= sum.txPackets && sum.rxBytes <= sum.txBytes
  {
    SumZero(ncpus);
    RunStats(Init(ncpus), steps);
  }

  /** What a step from h to m counts on CPU c: what it submits there, or hands to the stack. */
  ghost function Own(h: Hw, m: Hw, s: Step, c: nat): Counters {
    if s.SubmitStep? && s.cpu == c then Counters(0, 0, 1, |s.frame|)
    else if s == DispatchStep(c) && |m.delivered| > |h.delivered| then
      Counters(1, |m.delivered[|m.delivered| - 1].frame|, 0, 0)
    else Counters(0, 0, 0, 0)
  }

  /** What the steps of a run count on CPU c. */
  ghost function Share(h: Hw, steps: seq<Step>, c: nat): Counters
    requires Legal(h, steps)
    decreases |steps|
  {
    if steps == [] then Counters(0, 0, 0, 0)
    else
      var m := Apply(h, steps[0]);
      Own(h, m, steps[0], c).Plus(Share(m, steps[1..], c))
  }

  lemma {:induction false} StepCountsOwn(h: Hw, s: Step, c: nat)
    requires Enabled(h, s) && c < |h.cpus|
    ensures var m := Apply(h, s); |m.cpus| == |h.cpus| && m.cpus[c] == h.cpus[c].Plus(Own(h, m, s, c))
  {
    if s.DispatchStep? { DispatchCountsOwn(h, s.cpu, c); }
  }

  lemma {:induction false} DispatchCountsOwn(h: Hw, cpu: nat, c: nat)
    requires Enabled(h, DispatchStep(cpu)) && c < |h.cpus|
    ensures var m := Dispatch(h, cpu);
            |m.cpus| == |h.cpus| && m.cpus[c] == h.cpus[c].Plus(Own(h, m, DispatchStep(cpu), c))
  {
    var r := Reflect(h.hand.value.frame);
    assert r.Some? ==> |r.value| == |h.hand.value.frame|;
  }

  lemma {:induction false} PlusAssoc(a: Counters, b: Counters, c: Counters)
    ensures a.Plus(b).Plus(c) == a.Plus(b.Plus(c))
  {
  }

  /** Each CPU counts on its own: what the steps it ran submitted and handed up, and nothing else. */
  lemma {:induction false} EachCpuCountsItsOwn(h: Hw, steps: seq<Step>, c: nat)
    requires Legal(h, steps) && c < |h.cpus|
    ensures |Run(h, steps).cpus| == |h.cpus|
    ensures Run(h, steps).cpus[c] == h.cpus[c].Plus(Share(h, steps, c))
    decreases |steps|
  {
    if steps != [] {
      var m := Apply(h, steps[0]);
      StepCountsOwn(h, steps[0], c);
      EachCpuCountsItsOwn(m, steps[1..], c);
      PlusAssoc(h.cpus[c], Own(h, m, steps[0], c), Share(m, steps[1..], c));
    }
  }
}
