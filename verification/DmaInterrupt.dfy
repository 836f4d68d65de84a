/** Completion interrupts: the device raising them at the end of a processing run, the handler that
reads the status, acknowledges and wakes, and a client waiting for a completion.

The waiter follows the kernel's wait loop: put itself on the queue, test the condition, sleep; a
wake that comes between the test and the sleep makes it test again, and a sleep that times out (or is
cut short by a signal) ends with one more test. `WDone` is a wait that returned 0, `WFailed` one that
returned -ETIMEDOUT. `msi` selects edge-triggered
message interrupts, which are latched once, or the level-triggered line, which stays up as long
as the status is set.
*/
module DmaInterrupt {
  import opened Words

  /** `Running` remembers whether this run has completed anything. */
  datatype Device = Off | Running(didWork: bool)

  datatype Handler = HIdle | HRead | HAck | HWake

  datatype Waiter = WIdle | WQueued(woken: bool) | WTested(woken: bool) | WAsleep | WDone | WFailed

  datatype State = State(
    msi: bool,
    cqTail: nat,
    cqHead: nat,
    irqStatus: bool,
    latched: bool,
    dev: Device,
    handler: Handler,
    waiter: Waiter)

  datatype Event =
    | DevBegin | DevComplete | DevEnd
    | IrqEnter | IrqRead | IrqAck | IrqWake
    | WaitBegin | WaitTest | WaitSleep | WaitTimeout
    | Drain(n: nat)

  function Init(msi: bool): State {
    State(msi, 0, 0, false, false, Off, HIdle, WIdle)
  }

  /** The condition `engine_wait` waits for. */
  predicate Completed(s: State) {
    s.cqTail != s.cqHead
  }

  /** The interrupt controller has an interrupt to deliver. */
  predicate Deliverable(s: State) {
    if s.msi then s.latched else s.irqStatus
  }

  predicate OnQueue(x: Waiter) {
    x.WQueued? || x.WTested? || x.WAsleep?
  }

  function WakeUp(x: Waiter): Waiter {
    match x
    case WQueued(_) => WQueued(true)
    case WTested(_) => WTested(true)
    case WAsleep => WQueued(false)
    case _ => x
  }

  function Step(s: State, e: Event): State {
    match e
    case DevBegin => if s.dev.Off? then s.(dev := Running(false)) else s
    case DevComplete =>
      if s.dev.Running? then s.(cqTail := (s.cqTail + 1) % TWO32, dev := Running(true)) else s
    case DevEnd =>
      if s.dev.Running? && s.dev.didWork then s.(dev := Off, irqStatus := true, latched := s.msi)
      else if s.dev.Running? then s.(dev := Off)
      else s
    case IrqEnter => if s.handler.HIdle? && Deliverable(s) then s.(handler := HRead, latched := false) else s
    case IrqRead => if s.handler.HRead? then s.(handler := if s.irqStatus then HAck else HIdle) else s
    case IrqAck => if s.handler.HAck? then s.(handler := HWake, irqStatus := false) else s
    case IrqWake => if s.handler.HWake? then s.(handler := HIdle, waiter := WakeUp(s.waiter)) else s
    case WaitBegin => if OnQueue(s.waiter) then s else s.(waiter := WQueued(false))
    case WaitTest =>
      if s.waiter.WQueued? then s.(waiter := if Completed(s) then WDone else WTested(s.waiter.woken)) else s
    case WaitSleep =>
      if s.waiter.WTested? then s.(waiter := if s.waiter.woken then WQueued(false) else WAsleep) else s
    case WaitTimeout => if s.waiter.WAsleep? then s.(waiter := if Completed(s) then WDone else WFailed) else s
    case Drain(n) =>
      if n <= Distance(TWO32, s.cqTail, s.cqHead) then s.(cqHead := (s.cqHead + n) % TWO32) else s
  }

  function Run(s: State, es: seq<Event>): State
    decreases |es|
  {
    if es == [] then s else Step(Run(s, es[..|es| - 1]), es[|es| - 1])
  }

  /** The waiter has tested, has not been woken since, and will sleep or is asleep. */
  predicate Committed(x: Waiter) {
    x.WAsleep? || x == WTested(false)
  }

  /** A wake is still to come: the device has yet to raise, or an interrupt with its status still
      set is to be delivered or read, or the handler is past its read. */
  predicate WakeToCome(s: State) {
    || s.dev == Running(true)
    || (s.irqStatus && (Deliverable(s) || s.handler.HRead?))
    || s.handler.HAck? || s.handler.HWake?
  }

  ghost predicate Inv(s: State) {
    && s.cqTail < TWO32 && s.cqHead < TWO32
    && (Committed(s.waiter) && Completed(s) ==> WakeToCome(s))
  }

  /** Draining does not make an empty ring look non-empty. */
  lemma {:induction false} DrainEmpty(s: State, n: nat)
    requires s.cqTail < TWO32 && s.cqHead < TWO32
    ensures Completed(Step(s, Drain(n))) ==> Completed(s)
    ensures Step(s, Drain(n)).cqHead < TWO32
  {
    if !Completed(s) && n == 0 { ModSmall(s.cqHead, TWO32); }
  }

  lemma {:induction false} StepInv(s: State, e: Event)
    requires Inv(s)
    ensures Inv(Step(s, e))
  {
    if e.Drain? { DrainEmpty(s, e.n); }
  }

  lemma {:induction false} RunInv(s: State, es: seq<Event>)
    requires Inv(s)
    ensures Inv(Run(s, es))
    decreases |es|
  {
    if es == [] {
    } else {
      RunInv(s, es[..|es| - 1]);
      StepInv(Run(s, es[..|es| - 1]), es[|es| - 1]);
    }
  }

  lemma {:induction false} RunMsi(s: State, es: seq<Event>)
    ensures Run(s, es).msi == s.msi
    decreases |es|
  {
    if es == [] {
    } else {
      RunMsi(s, es[..|es| - 1]);
      StepMsi(Run(s, es[..|es| - 1]), es[|es| - 1]);
    }
  }

  lemma {:induction false} StepMsi(s: State, e: Event)
    ensures Step(s, e).msi == s.msi
  {
  }

  /** No lost wakeup: in every interleaving of device, handler, waiter and drains, a waiter asleep
      with a completion in the ring has a wake still to come. */
  lemma {:induction false} NoLostWakeup(msi: bool, es: seq<Event>)
    ensures var s := Run(Init(msi), es);
            Inv(s) && s.msi == msi && (s.waiter.WAsleep? && Completed(s) ==> WakeToCome(s))
  {
    RunInv(Init(msi), es);
    RunMsi(Init(msi), es);
  }

  // ---- a wait ends for a reason, and not before ----

  /** A wait returns 0 only in a state with a completion in the ring, and fails only by a timeout in a
      state without one. */
  lemma {:induction false} WaitEndsForAReason(s: State, e: Event)
    ensures var t := Step(s, e);
            && (t.waiter.WDone? && !s.waiter.WDone? ==> s.cqTail != s.cqHead)
            && (t.waiter.WFailed? && !s.waiter.WFailed? ==> e == WaitTimeout && s.cqTail == s.cqHead)
  {
  }

  /** Until then it goes on: a call that begins is on the queue; with a completion there its test ends
      it, without one it is asleep after one more round of its loop at most. */
  lemma {:induction false} WaitGoesOn(s: State)
    ensures !OnQueue(s.waiter) ==> Run(s, [WaitBegin]).waiter == WQueued(false)
    ensures s.waiter.WQueued? && s.cqTail != s.cqHead ==> Run(s, [WaitTest]).waiter == WDone
    ensures s.waiter == WQueued(false) && s.cqTail == s.cqHead ==>
              Run(s, [WaitTest] + [WaitSleep]) == s.(waiter := WAsleep)
    ensures s.waiter == WQueued(true) && s.cqTail == s.cqHead ==>
              Run(s, [WaitTest] + [WaitSleep]) == s.(waiter := WQueued(false))
  {
    RunSnoc(s, [], WaitBegin);
    RunSnoc(s, [], WaitTest);
    RunSnoc(s, [WaitTest], WaitSleep);
    assert [] + [WaitBegin] == [WaitBegin] && [] + [WaitTest] == [WaitTest];
  }

  ghost predicate NoWork(es: seq<Event>) {
    forall e :: e in es ==> !e.DevComplete?
  }

  /** Without work of the device there is no interrupt, and nobody's wait returns 0. */
  lemma {:induction false} QuietWithoutWork(msi: bool, es: seq<Event>)
    requires NoWork(es)
    ensures var s := Run(Init(msi), es);
            && !s.irqStatus && !s.latched && s.handler.HIdle? && s.dev != Running(true)
            && s.cqTail == s.cqHead == 0 && !s.waiter.WDone?
    decreases |es|
  {
    if es == [] {
    } else {
      var e := es[|es| - 1];
      assert e in es && forall d :: d in es[..|es| - 1] ==> d in es;
      QuietWithoutWork(msi, es[..|es| - 1]);
      QuietStep(Run(Init(msi), es[..|es| - 1]), e);
    }
  }

  lemma {:induction false} QuietStep(s: State, e: Event)
    requires !s.irqStatus && !s.latched && s.handler.HIdle? && s.dev != Running(true)
    requires s.cqTail == s.cqHead == 0 && !s.waiter.WDone? && e != DevComplete
    ensures var t := Step(s, e);
            && !t.irqStatus && !t.latched && t.handler.HIdle? && t.dev != Running(true)
            && t.cqTail == t.cqHead == 0 && !t.waiter.WDone?
  {
  }

  /** The handler run without interruption, for any interrupt that is delivered: with the status set it
      clears it and wakes who is on the queue, a sleeper to its next test; otherwise it does nothing. */
  lemma {:induction false} HandlerRun(s: State)
    requires s.handler.HIdle? && Deliverable(s)
    ensures Run(s, [IrqEnter, IrqRead] + [IrqAck, IrqWake])
         == if s.irqStatus then s.(latched := false, irqStatus := false, waiter := WakeUp(s.waiter))
            else s.(latched := false)
    ensures WakeUp(WAsleep) == WQueued(false)
  {
    RunCons(s, IrqEnter, [IrqRead] + [IrqAck, IrqWake]);
    var s1 := Step(s, IrqEnter);
    RunCons(s1, IrqRead, [IrqAck, IrqWake]);
    var s2 := Step(s1, IrqRead);
    RunCons(s2, IrqAck, [IrqWake]);
    RunSnoc(Step(s2, IrqAck), [], IrqWake);
    assert [IrqEnter, IrqRead] + [IrqAck, IrqWake] == [IrqEnter] + ([IrqRead] + [IrqAck, IrqWake]);
    assert [IrqAck] + [IrqWake] == [IrqAck, IrqWake] && [] + [IrqWake] == [IrqWake];
  }

  /** What is left for the handler to do until it wakes the waiters. */
  function HandlerRest(h: Handler): seq<Event> {
    match h
    case HIdle => [IrqEnter, IrqRead, IrqAck, IrqWake]
    case HRead => [IrqRead, IrqAck, IrqWake]
    case HAck => [IrqAck, IrqWake]
    case HWake => [IrqWake]
  }

  /** The device's end of run, if it is still to raise, and then the handler. */
  function Rescue(s: State): seq<Event> {
    (if s.dev == Running(true) then [DevEnd] else []) + HandlerRest(s.handler)
  }

  lemma {:induction false} RunSnoc(s: State, es: seq<Event>, e: Event)
    ensures Run(s, es + [e]) == Step(Run(s, es), e)
  {
    assert (es + [e])[..|es|] == es;
  }

  lemma {:induction false} RunCons(s: State, e: Event, es: seq<Event>)
    ensures Run(s, [e] + es) == Run(Step(s, e), es)
    decreases |es|
  {
    if es == [] {
      assert [e] + es == [] + [e];
      RunSnoc(s, [], e);
    } else {
      var k := |es| - 1;
      RunCons(s, e, es[..k]);
      RunSnoc(s, [e] + es[..k], es[k]);
      RunSnoc(Step(s, e), es[..k], es[k]);
      assert [e] + es == ([e] + es[..k]) + [es[k]] && es == es[..k] + [es[k]];
    }
  }

  lemma {:induction false} HandlerWakes(s: State)
    requires s.waiter.WAsleep? && Completed(s)
    requires match s.handler
             case HIdle => Deliverable(s) && s.irqStatus
             case HRead => s.irqStatus
             case HAck => true
             case HWake => true
    ensures var t := Run(s, HandlerRest(s.handler));
            t.waiter == WQueued(false) && Completed(t)
    decreases |HandlerRest(s.handler)|
  {
    var es := HandlerRest(s.handler);
    assert es == [es[0]] + es[1..];
    RunCons(s, es[0], es[1..]);
    if !s.handler.HWake? {
      HandlerWakes(Step(s, es[0]));
    } else {
      assert es[1..] == [];
    }
  }

  lemma {:induction false} RescueWakes(s: State)
    requires Inv(s) && s.waiter.WAsleep? && Completed(s)
    ensures Run(s, Rescue(s) + [WaitTest]).waiter == WDone
  {
    var rest := HandlerRest(s.handler);
    if s.dev == Running(true) {
      RunCons(s, DevEnd, rest);
      HandlerWakes(Step(s, DevEnd));
    } else {
      assert [] + rest == rest;
      HandlerWakes(s);
    }
    RunSnoc(s, Rescue(s), WaitTest);
  }

  /** The wake does come: from any reachable state with a sleeping waiter and a completion in the
      ring, the device finishing its run and the handler running to its end, and nothing else, wake
      the waiter, whose next test ends the wait. */
  lemma {:induction false} WaiterIsRescued(msi: bool, es: seq<Event>)
    ensures var s := Run(Init(msi), es);
            s.waiter.WAsleep? && Completed(s) ==>
              Run(s, Rescue(s) + [WaitTest]).waiter == WDone
  {
    NoLostWakeup(msi, es);
    var s := Run(Init(msi), es);
    if s.waiter.WAsleep? && Completed(s) { RescueWakes(s); }
  }
}
