/** What asking for the receive callback and taking it away do, over every run. */
module DummyRegistration {
  import opened Options
  import opened Bytes
  import opened Ethernet
  import opened Reflector
  import opened Counting
  import opened DummyHw

  /** The mode of the last request, or was if there is none. */
  ghost function Asked(steps: seq<Step>, was: bool): bool {
    if steps == [] then was else Asked(steps[1..], if steps[0].RequestStep? then steps[0].mode else was)
  }

  /** Whatever happens in between, the callback is set exactly when it was last asked for. */
  lemma {:induction false} RegisteredIsAsked(h: Hw, steps: seq<Step>)
    requires Legal(h, steps)
    ensures Run(h, steps).registered == Asked(steps, h.registered)
    decreases |steps|
  {
    if steps != [] { RegisteredIsAsked(Apply(h, steps[0]), steps[1..]); }
  }

  /** The skbs of the submissions among the steps, numbered from t. */
  ghost function Submissions(steps: seq<Step>, t: nat): seq<Skb> {
    if steps == [] then []
    else if steps[0].SubmitStep? then [Skb(t, steps[0].frame)] + Submissions(steps[1..], t + 1)
    else Submissions(steps[1..], t)
  }

  /** Freed, then about to be freed: what has not been delivered, in the order it is dealt with. */
  function Doomed(h: Hw): seq<Skb> { h.freed + InHand(h) + h.queue }

  lemma {:induction false} StepUnregistered(h: Hw, s: Step)
    requires Enabled(h, s) && !h.registered && s != RequestStep(true)
    ensures var m := Apply(h, s);
            && !m.registered && m.delivered == h.delivered
            && Doomed(m) == Doomed(h) + (if s.SubmitStep? then [Skb(|h.submitted|, s.frame)] else [])
            && |m.submitted| == |h.submitted| + (if s.SubmitStep? then 1 else 0)
  {
    if s == DequeueStep && h.queue != [] { assert h.queue == [h.queue[0]] + h.queue[1..]; }
  }

  /**
   * Without a callback, and until one is asked for, nothing is delivered: every
   * frame queued, in hand or submitted meanwhile is freed in its turn.
   */
  lemma {:induction false} UnregisteredFreesAll(h: Hw, steps: seq<Step>)
    requires Legal(h, steps) && !h.registered && RequestStep(true) !in steps
    ensures var m := Run(h, steps);
            m.delivered == h.delivered && Doomed(m) == Doomed(h) + Submissions(steps, |h.submitted|)
    decreases |steps|
  {
    if steps != [] {
      var s, m := steps[0], Apply(h, steps[0]);
      assert s in steps;
      StepUnregistered(h, s);
      UnregisteredFreesAll(m, steps[1..]);
      var now := if s.SubmitStep? then [Skb(|h.submitted|, s.frame)] else [];
      assert Submissions(steps, |h.submitted|) == now + Submissions(steps[1..], |m.submitted|);
      Assoc(Doomed(h), now, Submissions(steps[1..], |m.submitted|));
    }
  }

  /**
   * Taking the callback away frees at once all that is queued, in order, and
   * delivers nothing; from then on, until it is asked for again, whatever is
   * submitted is freed as well.
   */
  lemma {:induction false} DeregistrationFreesAll(ncpus: nat, before: seq<Step>, after: seq<Step>)
    requires Legal(Init(ncpus), before) && Run(Init(ncpus), before).alive && Asked(before, false)
    requires Legal(RequestIrq(Run(Init(ncpus), before), false), after) && RequestStep(true) !in after
    ensures var h := Run(Init(ncpus), before);
            var m := RequestIrq(h, false);
            && !m.registered && m.queue == [] && m.freed == h.freed + h.queue && m.hand == h.hand
            && Run(m, after).delivered == h.delivered
            && Doomed(Run(m, after)) == h.freed + h.queue + InHand(h) + Submissions(after, |h.submitted|)
  {
    RegisteredIsAsked(Init(ncpus), before);
    var m := RequestIrq(Run(Init(ncpus), before), false);
    UnregisteredFreesAll(m, after);
    assert m.freed + InHand(m) + [] == m.freed + InHand(m);
  }
}
