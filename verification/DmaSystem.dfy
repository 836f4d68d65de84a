/** Rings, interrupts and a waiting client together: the processing loop and the drains of `DmaRings`
drive the interrupt machine of `DmaInterrupt`, so that "no lost wakeup" speaks about the completions
that `DmaProperties.Delivery` speaks about. */
module DmaSystem {
  import opened Words
  import opened DmaProperties
  import R = DmaRings
  import I = DmaInterrupt

  datatype System = System(rings: R.State, irq: I.State)

  /** A step of the rings, or one of the handler or the waiter. */
  datatype Action = OnRings(e: R.Event) | OnIrq(i: I.Event)

  function Init(hw: R.Hw, msi: bool): System {
    System(R.Init(hw), I.Init(msi))
  }

  /** What a step of the rings means for interrupts: the device starting, posting a completion and
      ending its run, and a drain giving slots back. */
  function Signal(w: nat, s: R.State, e: R.Event): seq<I.Event> {
    var t := R.Step(w, s, e);
    if s.dev.Off? && !t.dev.Off? then [I.DevBegin]
    else if !s.dev.Off? && t.dev.Off? then [I.DevEnd]
    else if |t.completed| > |s.completed| then [I.DevComplete]
    else if |t.drained| > |s.drained| then [I.Drain(|t.drained| - |s.drained|)]
    else []
  }

  predicate ByHandlerOrWaiter(e: I.Event) {
    !e.DevBegin? && !e.DevComplete? && !e.DevEnd? && !e.Drain?
  }

  function Step(w: nat, x: System, a: Action): System {
    match a
    case OnRings(e) => System(R.Step(w, x.rings, e), I.Run(x.irq, Signal(w, x.rings, e)))
    case OnIrq(i) => if ByHandlerOrWaiter(i) then x.(irq := I.Step(x.irq, i)) else x
  }

  function Run(w: nat, x: System, acts: seq<Action>): System
    decreases |acts|
  {
    if acts == [] then x else Step(w, Run(w, x, acts[..|acts| - 1]), acts[|acts| - 1])
  }

  function RingEvents(acts: seq<Action>): seq<R.Event>
    decreases |acts|
  {
    if acts == [] then [] else
    var last := acts[|acts| - 1];
    RingEvents(acts[..|acts| - 1]) + if last.OnRings? then [last.e] else []
  }

  /** Both machines see the same counters and the same device. */
  predicate Linked(x: System) {
    && x.irq.cqTail == x.rings.hw.cqTail && x.irq.cqHead == x.rings.hw.cqHead
    && (x.irq.dev.Off? <==> x.rings.dev.Off?)
  }

  lemma {:induction false} SignalOnce(i: I.State, e: I.Event)
    ensures I.Run(i, [e]) == I.Step(i, e)
  {
    I.RunSnoc(i, [], e);
    assert [] + [e] == [e];
  }

  lemma {:induction false} LastRingEvent(acts: seq<Action>)
    requires acts != []
    ensures var before, a, es := acts[..|acts| - 1], acts[|acts| - 1], RingEvents(acts);
            if a.OnRings?
            then es != [] && es[..|es| - 1] == RingEvents(before) && es[|es| - 1] == a.e
            else es == RingEvents(before)
  {
    var before, a := acts[..|acts| - 1], acts[|acts| - 1];
    if a.OnRings? {
      assert RingEvents(acts) == RingEvents(before) + [a.e];
    } else {
      assert RingEvents(acts) == RingEvents(before) + [];
    }
  }

  /** A step of the rings with 32-bit counters moves the interrupt machine along. */
  lemma {:induction false} RingStepLinked(x: System, u: R.State, e: R.Event)
    requires R.Counters(u) && u.hw.cqTail - u.hw.cqHead < TWO32
    requires x.rings == WrapState(u) && Linked(x) && I.Inv(x.irq)
    ensures Linked(Step(TWO32, x, OnRings(e))) && I.Inv(Step(TWO32, x, OnRings(e)).irq)
  {
    var sig := Signal(TWO32, x.rings, e);
    if sig == [] {
      SilentStep(x.rings, e);
    } else {
      SignalOnce(x.irq, sig[0]);
      I.StepInv(x.irq, sig[0]);
      SignalledStep(x, u, e);
    }
  }

  lemma {:induction false} SilentStep(s: R.State, e: R.Event)
    requires Signal(TWO32, s, e) == [] && 0 <= s.hw.cqHead < TWO32
    requires s.dra.DCopy? ==> |s.dra.got| <= s.dra.count
    ensures var t := R.Step(TWO32, s, e);
            t.hw.cqTail == s.hw.cqTail && t.hw.cqHead == s.hw.cqHead && (t.dev.Off? <==> s.dev.Off?)
  {
    ModSmall(s.hw.cqHead, TWO32);
  }

  lemma {:induction false} SignalledStep(x: System, u: R.State, e: R.Event)
    requires R.Counters(u) && u.hw.cqTail - u.hw.cqHead < TWO32
    requires x.rings == WrapState(u) && Linked(x) && Signal(TWO32, x.rings, e) != []
    ensures Linked(System(R.Step(TWO32, x.rings, e), I.Step(x.irq, Signal(TWO32, x.rings, e)[0])))
  {
    if e.DrainEnd? { WrapDistance(TWO32, u.hw.cqTail, u.hw.cqHead); }
  }

  /** The rings of the whole system run exactly as the rings alone. */
  lemma {:induction false} SameRings(w: nat, hw: R.Hw, msi: bool, acts: seq<Action>)
    ensures Run(w, Init(hw, msi), acts).rings == R.Run(w, R.Init(hw), RingEvents(acts))
    decreases |acts|
  {
    if acts == [] {
    } else {
      var before, a := acts[..|acts| - 1], acts[|acts| - 1];
      SameRings(w, hw, msi, before);
      LastRingEvent(acts);
    }
  }

  /** What a step of the whole system is for interrupts. */
  function Signals(w: nat, x: System, a: Action): seq<I.Event> {
    match a
    case OnRings(e) => Signal(w, x.rings, e)
    case OnIrq(i) => if ByHandlerOrWaiter(i) then [i] else []
  }

  function IrqEvents(w: nat, x: System, acts: seq<Action>): seq<I.Event>
    decreases |acts|
  {
    if acts == [] then [] else
    var before := acts[..|acts| - 1];
    IrqEvents(w, x, before) + Signals(w, Run(w, x, before), acts[|acts| - 1])
  }

  /** The interrupt side runs exactly as it does alone, on the signals of the rings and the steps of
      handler and waiter. */
  lemma {:induction false} SameInterrupts(w: nat, x: System, acts: seq<Action>)
    ensures Run(w, x, acts).irq == I.Run(x.irq, IrqEvents(w, x, acts))
    decreases |acts|
  {
    if acts == [] {
    } else {
      var before, a := acts[..|acts| - 1], acts[|acts| - 1];
      SameInterrupts(w, x, before);
      SignalledBy(w, Run(w, x, before), a);
      var es, sig := IrqEvents(w, x, before), Signals(w, Run(w, x, before), a);
      if sig == [] {
        assert es + sig == es;
      } else {
        assert sig == [sig[0]];
        I.RunSnoc(x.irq, es, sig[0]);
      }
    }
  }

  lemma {:induction false} SignalledBy(w: nat, x: System, a: Action)
    ensures var sig := Signals(w, x, a);
            && |sig| <= 1
            && Step(w, x, a).irq == (if sig == [] then x.irq else I.Step(x.irq, sig[0]))
  {
    var sig := Signals(w, x, a);
    if sig != [] { SignalOnce(x.irq, sig[0]); }
  }

  lemma {:induction false} CountableBefore(hw: R.Hw, acts: seq<Action>)
    requires acts != [] && Countable(hw, RingEvents(acts))
    ensures Countable(hw, RingEvents(acts[..|acts| - 1]))
  {
    LastRingEvent(acts);
  }

  lemma {:induction false} SystemInv(hw: R.Hw, msi: bool, acts: seq<Action>)
    requires R.Fresh(hw) && DepthsOk(hw) && Countable(hw, RingEvents(acts))
    ensures Linked(Run(TWO32, Init(hw, msi), acts)) && I.Inv(Run(TWO32, Init(hw, msi), acts).irq)
    decreases |acts|
  {
    if acts == [] {
    } else {
      var before, a := acts[..|acts| - 1], acts[|acts| - 1];
      var x := Run(TWO32, Init(hw, msi), before);
      CountableBefore(hw, acts);
      SystemInv(hw, msi, before);
      match a
      case OnRings(e) =>
        SameRings(TWO32, hw, msi, before);
        var v := RingsReach(hw, RingEvents(before));
        RingStepLinked(x, v, e);
      case OnIrq(i) => IrqStepLinked(x, i);
    }
  }

  lemma {:induction false} IrqStepLinked(x: System, i: I.Event)
    requires Linked(x) && I.Inv(x.irq)
    ensures Linked(Step(TWO32, x, OnIrq(i))) && I.Inv(Step(TWO32, x, OnIrq(i)).irq)
  {
    I.StepInv(x.irq, i);
  }

  /** The oldest undrained completion is in the slot the next drain reads. */
  predicate NextInSlot(s: R.State, depth: nat) {
    && |s.hw.cq| == depth > 0 && |s.drained| < |s.completed|
    && s.hw.cq[|s.drained| % depth] == s.completed[|s.drained|]
  }

  lemma {:induction false} OldestInSlot(hw: R.Hw, es: seq<R.Event>)
    requires R.Fresh(hw) && DepthsOk(hw) && Disciplined(TWO32, R.Init(hw), es)
    ensures var s := R.Run(TWO32, R.Init(hw), es);
            |s.drained| < |s.completed| ==> NextInSlot(s, hw.cqDepth)
  {
    var u := Reach(hw, es);
    if u.hw.cqHead < u.hw.cqTail {
      assert R.CqAt(u.hw, u.hw.cqHead) == u.completed[u.hw.cqHead];
    }
  }

  lemma {:induction false} ConditionMeansUndrained(hw: R.Hw, es: seq<R.Event>)
    requires R.Fresh(hw) && DepthsOk(hw) && Countable(hw, es)
    ensures var s := R.Run(TWO32, R.Init(hw), es);
            && |s.drained| <= |s.completed|
            && (|s.drained| < |s.completed| <==> s.hw.cqTail != s.hw.cqHead)
  {
    var u := RingsReach(hw, es);
    WrapEqual(TWO32, u.hw.cqTail, u.hw.cqHead);
  }

  /** A wait that returns 0 has something to drain, and one that fails has not, whatever else goes on. */
  lemma {:induction false} WaitTellsTheTruth(hw: R.Hw, msi: bool, acts: seq<Action>, a: Action)
    requires R.Fresh(hw) && DepthsOk(hw) && Countable(hw, RingEvents(acts))
    ensures var x := Run(TWO32, Init(hw, msi), acts);
            var y := Step(TWO32, x, a);
            && (y.irq.waiter.WDone? && !x.irq.waiter.WDone? ==> |x.rings.drained| < |x.rings.completed|)
            && (y.irq.waiter.WFailed? && !x.irq.waiter.WFailed? ==> |x.rings.drained| == |x.rings.completed|)
  {
    var x := Run(TWO32, Init(hw, msi), acts);
    SameRings(TWO32, hw, msi, acts);
    SystemInv(hw, msi, acts);
    ConditionMeansUndrained(hw, RingEvents(acts));
    SignalledBy(TWO32, x, a);
    var sig := Signals(TWO32, x, a);
    if sig != [] { I.WaitEndsForAReason(x.irq, sig[0]); }
  }

  /** End to end: in every interleaving of submitter, device, drains, handler and waiter, across
      wraparound, the condition waited for means an undrained completion, and a client asleep while
      there is one has a wake to come, which the device's end of run and the handler deliver. If the
      client is disciplined the completion is still in its slot. */
  lemma {:induction false} SleeperGetsItsCompletion(hw: R.Hw, msi: bool, acts: seq<Action>)
    requires R.Fresh(hw) && DepthsOk(hw) && Countable(hw, RingEvents(acts))
    ensures var x := Run(TWO32, Init(hw, msi), acts);
            && x.rings == R.Run(TWO32, R.Init(hw), RingEvents(acts))
            && (I.Completed(x.irq) <==> |x.rings.drained| < |x.rings.completed|)
            && (x.irq.waiter.WAsleep? && |x.rings.drained| < |x.rings.completed| ==>
                && I.WakeToCome(x.irq)
                && I.Run(x.irq, I.Rescue(x.irq) + [I.WaitTest]).waiter == I.WDone
                && (Disciplined(TWO32, R.Init(hw), RingEvents(acts)) ==> NextInSlot(x.rings, hw.cqDepth)))
  {
    SameRings(TWO32, hw, msi, acts);
    SystemInv(hw, msi, acts);
    ConditionMeansUndrained(hw, RingEvents(acts));
    if Disciplined(TWO32, R.Init(hw), RingEvents(acts)) { OldestInSlot(hw, RingEvents(acts)); }
    var irq := Run(TWO32, Init(hw, msi), acts).irq;
    if irq.waiter.WAsleep? && I.Completed(irq) { I.RescueWakes(irq); }
  }
}
