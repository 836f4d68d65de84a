/** What the calls get done in the middle of other activity: a doorbell, whatever the device is doing,
and the device running on complete everything submitted; a drain, whatever the others are doing, takes
everything that is complete. */
module DmaProgress {
  import opened Words
  import opened DmaTransfer
  import opened DmaRings
  import opened DmaProperties
  import opened DmaCalls
  import opened DmaLimits

  // ---- doorbell and device ----

  /** The device has fetched a submission and not yet counted its completion. */
  predicate Busy(d: Device) {
    !d.Off? && !d.Loop?
  }

  /** What is left of the iteration the device is in; an idle device starts. `o` is how the transfer
      goes, if it is still to be made. */
  function IterationRest(d: Device, o: Outcome): seq<Event> {
    match d
    case Off => [DevStart]
    case Loop => []
    case Fetched(_) => [DevExecute(o), DevPost, DevBumpSq, DevBumpCq]
    case Executed(_) => [DevPost, DevBumpSq, DevBumpCq]
    case Posted(_) => [DevBumpSq, DevBumpCq]
    case Bumped(_) => [DevBumpCq]
  }

  /** The doorbell, and the device's own events until it stops. */
  function RingAndFinish(d: Device, o: Outcome, outs: seq<Outcome>): seq<Event> {
    [Doorbell] + IterationRest(d, o) + (LoopEvents(outs) + [DevFetch])
  }

  lemma {:induction false} RunCons(s: State, e: Event, es: seq<Event>)
    ensures Run(0, s, [e] + es) == Run(0, Step(0, s, e), es)
  {
    RunOne(0, s, e);
    RunAppend(0, s, [e], es);
  }

  lemma {:induction false} RunSplit(s: State, e: Event, a: seq<Event>, b: seq<Event>)
    ensures Run(0, s, [e] + a + b) == Run(0, Run(0, Step(0, s, e), a), b)
  {
    RunCons(s, e, a);
    RunAppend(0, s, [e] + a, b);
  }

  /** From `u` to `t` the device has gone on, its transfers going as `more`, and nothing was submitted.
      What it is busy with counts as completed. */
  predicate Onward(u: State, t: State, more: seq<Outcome>) {
    && t.hw.sqTail == u.hw.sqTail && t.hw.bell == u.hw.bell
    && t.hw.sqDepth == u.hw.sqDepth && t.hw.cqDepth == u.hw.cqDepth
    && t.submitted == u.submitted && t.outs == u.outs + more
    && |t.completed| + (if Busy(t.dev) then 1 else 0) == |u.completed| + (if Busy(u.dev) then 1 else 0)
  }

  lemma {:induction false} OnwardThen(u: State, t: State, v: State, a: seq<Outcome>, b: seq<Outcome>)
    requires Onward(u, t, a) && Onward(t, v, b)
    ensures Onward(u, v, a + b)
  {
    assert u.outs + (a + b) == u.outs + a + b;
  }

  function Transfers(d: Device, o: Outcome): seq<Outcome> {
    if d.Fetched? then [o] else []
  }

  /** One device event from inside an iteration goes on to the next place in it. */
  lemma {:induction false} IterationStep(w0: World, u: State, o: Outcome)
    requires Inv(w0, u) && Busy(u.dev)
    ensures var es := IterationRest(u.dev, o);
            var t := Step(0, u, es[0]);
            && es[1..] == IterationRest(t.dev, o) && !t.dev.Off? && !t.dev.Fetched?
            && Onward(u, t, Transfers(u.dev, o))
  {
    match u.dev
    case Fetched(_) => assert Step(0, u, DevExecute(o)).dev.Executed?;
    case Executed(cqe) => PostStep(u);
    case Posted(_) =>
    case Bumped(_) =>
  }

  lemma {:induction false} PostStep(u: State)
    requires Counters(u) && u.hw.cqDepth > 0 && u.dev.Executed?
    ensures Step(0, u, DevPost) == u.(hw := u.hw.(cq := Step(0, u, DevPost).hw.cq), dev := Posted(u.dev.cqe))
  {
    assert Slot(0, u.hw.cqDepth, u.hw.cqTail) == u.hw.cqTail % u.hw.cqDepth;
  }

  /** So the iteration ends at the head of the loop, one completion on. */
  lemma {:induction false} IterationEnds(w0: World, u: State, o: Outcome)
    requires Inv(w0, u) && !u.dev.Off?
    ensures var t := Run(0, u, IterationRest(u.dev, o));
            Inv(w0, t) && t.dev.Loop? && Onward(u, t, Transfers(u.dev, o))
    decreases |IterationRest(u.dev, o)|
  {
    if u.dev.Loop? {
    } else {
      IterationGoesOn(w0, u, o);
      var e := IterationRest(u.dev, o)[0];
      var v := Step(0, u, e);
      IterationEnds(w0, v, o);
      var t := Run(0, v, IterationRest(v.dev, o));
      OnwardThen(u, v, t, Transfers(u.dev, o), []);
      assert Transfers(u.dev, o) + [] == Transfers(u.dev, o);
    }
  }

  lemma {:induction false} IterationGoesOn(w0: World, u: State, o: Outcome)
    requires Inv(w0, u) && Busy(u.dev)
    ensures var es := IterationRest(u.dev, o);
            var v := Step(0, u, es[0]);
            && Inv(w0, v) && !v.dev.Off? && Transfers(v.dev, o) == [] && Onward(u, v, Transfers(u.dev, o))
            && |IterationRest(v.dev, o)| < |es| && Run(0, u, es) == Run(0, v, IterationRest(v.dev, o))
  {
    var es := IterationRest(u.dev, o);
    IterationStep(w0, u, o);
    StepInv(w0, u, es[0]);
    assert es == [es[0]] + es[1..];
    RunCons(u, es[0], es[1..]);
  }

  lemma {:induction false} StartLoop(w0: World, u: State)
    requires Inv(w0, u) && u.dev.Off?
    ensures Run(0, u, [DevStart]) == u.(dev := Loop) && Inv(w0, u.(dev := Loop))
  {
    RunOne(0, u, DevStart);
    StepInv(w0, u, DevStart);
  }

  /** The doorbell, and a start if the device is idle. */
  lemma {:induction false} RingDoorbell(w0: World, u: State, o: Outcome)
    requires Inv(w0, u)
    ensures var t := Run(0, Step(0, u, Doorbell), IterationRest(u.dev, o));
            && Inv(w0, t) && t.dev.Loop? && t.hw.bell == t.hw.sqTail
            && t.hw.sqDepth == u.hw.sqDepth && t.hw.cqDepth == u.hw.cqDepth
            && t.submitted == u.submitted && t.outs == u.outs + Transfers(u.dev, o)
            && |t.completed| == |u.completed| + (if Busy(u.dev) then 1 else 0)
  {
    var v := Step(0, u, Doorbell);
    StepInv(w0, u, Doorbell);
    if u.dev.Off? {
      StartLoop(w0, v);
    } else {
      IterationEnds(w0, v, o);
    }
  }

  /** From the head of the loop the device works through everything announced and stops. */
  lemma {:induction false} LoopEnds(w0: World, u: State, outs: seq<Outcome>)
    requires Inv(w0, u) && u.dev.Loop? && DepthsOk(u.hw) && u.hw.cqDepth > 0
    requires u.hw.bell == u.hw.sqTail && |outs| == |u.submitted| - |u.completed|
    ensures var t := Run(0, u, LoopEvents(outs) + [DevFetch]);
            && Inv(w0, t) && t.dev.Off? && t.submitted == u.submitted && t.outs == u.outs + outs
            && |t.completed| == |t.submitted|
  {
    PendingGuards(u.hw, outs);
    LoopRun(0, u, outs);
    AfterLoopFacts(0, u, outs);
    RunSnoc(0, u, LoopEvents(outs), DevFetch);
    RunInv(w0, u, LoopEvents(outs) + [DevFetch]);
  }

  lemma {:induction false} RingAndFinishIdeal(w0: World, u: State, o: Outcome, outs: seq<Outcome>)
    requires Inv(w0, u) && DepthsOk(u.hw) && u.hw.cqDepth > 0
    requires |outs| == |u.submitted| - |u.completed| - (if Busy(u.dev) then 1 else 0)
    ensures var t := Run(0, u, RingAndFinish(u.dev, o, outs));
            && t.dev.Off? && t.submitted == u.submitted && |t.completed| == |t.submitted|
            && t.outs == u.outs + Transfers(u.dev, o) + outs
  {
    RingDoorbell(w0, u, o);
    LoopEnds(w0, Run(0, Step(0, u, Doorbell), IterationRest(u.dev, o)), outs);
    RunSplit(u, Doorbell, IterationRest(u.dev, o), LoopEvents(outs) + [DevFetch]);
  }

  lemma {:induction false} DeviceFollows(w0: World, s: State, u: State, es: seq<Event>)
    requires Inv(w0, u) && DepthsOk(u.hw) && Erase(s) == WrapState(u)
    requires forall e :: e in es ==> !IsDrain(e)
    ensures Erase(Run(TWO32, s, es)) == WrapState(Run(0, u, es))
    decreases |es|
  {
    if es == [] {
    } else {
      var before, e := es[..|es| - 1], es[|es| - 1];
      DeviceFollows(w0, s, u, before);
      RunInv(w0, u, before);
      RunDepths(u, before);
      assert e in es;
      DeviceFollowsStep(w0, Run(TWO32, s, before), Run(0, u, before), e);
    }
  }

  lemma {:induction false} RunDepths(u: State, es: seq<Event>)
    ensures Run(0, u, es).hw.sqDepth == u.hw.sqDepth && Run(0, u, es).hw.cqDepth == u.hw.cqDepth
    decreases |es|
  {
    if es == [] {
    } else {
      RunDepths(u, es[..|es| - 1]);
      StepDepths(0, Run(0, u, es[..|es| - 1]), es[|es| - 1]);
    }
  }

  lemma {:induction false} LoopHasNoDrains(outs: seq<Outcome>)
    ensures forall e :: e in LoopEvents(outs) ==> !IsDrain(e)
    decreases |outs|
  {
    if outs == [] {
    } else {
      LoopHasNoDrains(outs[1..]);
      assert forall e :: e in OneSqe(outs[0]) ==> !IsDrain(e);
    }
  }

  lemma {:induction false} FinishHasNoDrains(d: Device, o: Outcome, outs: seq<Outcome>)
    ensures forall e :: e in RingAndFinish(d, o, outs) ==> !IsDrain(e)
  {
    LoopHasNoDrains(outs);
    assert forall e :: e in IterationRest(d, o) ==> !IsDrain(e);
  }

  /** No submission is forgotten. After any run of any client with 32-bit counters, wherever the device,
      the submitter and the drainer are, a doorbell and the device running on until it stops complete
      everything submitted, in order. */
  lemma {:induction false} DoorbellCompletesAll(hw: Hw, es: seq<Event>, o: Outcome, outs: seq<Outcome>)
    requires Fresh(hw) && DepthsOk(hw) && hw.cqDepth > 0
    requires var s := Run(TWO32, Init(hw), es);
             |outs| == |s.submitted| - |s.completed| - (if Busy(s.dev) then 1 else 0)
    ensures var s := Run(TWO32, Init(hw), es);
            var t := Run(TWO32, s, RingAndFinish(s.dev, o, outs));
            && t.dev.Off? && t.submitted == s.submitted
            && t.outs == s.outs + Transfers(s.dev, o) + outs
            && |t.outs| == |t.submitted|
            && t.completed == Completions(t.submitted, t.outs)
            && t.hw.world == WorldAfter(hw.world, t.submitted, t.outs)
  {
    var s := Run(TWO32, Init(hw), es);
    var fs := RingAndFinish(s.dev, o, outs);
    var u := DeviceReach(hw, es);
    SameProgress(s, u);
    RingAndFinishIdeal(hw.world, u, o, outs);
    FinishHasNoDrains(s.dev, o, outs);
    DeviceFollows(hw.world, s, u, fs);
    SameProgress(Run(TWO32, s, fs), Run(0, u, fs));
    RunAppend(TWO32, Init(hw), es, fs);
    AllCompleted(hw, es + fs);
  }

  lemma {:induction false} SameProgress(s: State, u: State)
    requires Erase(s) == WrapState(u)
    ensures s.dev == u.dev && s.submitted == u.submitted && s.outs == u.outs && s.completed == u.completed
  {
    assert Erase(s).dev == WrapState(u).dev && Erase(s).submitted == WrapState(u).submitted;
    assert Erase(s).outs == WrapState(u).outs && Erase(s).completed == WrapState(u).completed;
  }

  // ---- drain ----

  lemma {:induction false} DisciplinedThen(hw: Hw, es: seq<Event>, fs: seq<Event>)
    requires Disciplined(TWO32, Init(hw), es) && NoSubmits(fs)
    ensures Disciplined(TWO32, Init(hw), es + fs)
    decreases |fs|
  {
    if fs == [] {
      assert es + fs == es;
    } else {
      var before, e := fs[..|fs| - 1], fs[|fs| - 1];
      assert e in fs;
      DisciplinedThen(hw, es, before);
      assert (es + fs)[..|es + fs| - 1] == es + before;
    }
  }

  lemma {:induction false} CopiesNoSubmits(k: nat)
    ensures NoSubmits(Times(DrainCopy, k))
  {
    if k == 0 {
    } else {
      CopiesNoSubmits(k - 1);
    }
  }

  /** A drain with `k` entries to copy. */
  function DrainOf(max: nat, k: nat): seq<Event> {
    [DrainBegin(max)] + Times(DrainCopy, k) + [DrainEnd]
  }

  /** A drain takes what there is: after any run that never leaves 2^32 completions undrained, whatever
      submitter and device are doing, an uninterrupted drain returns as many completions as are
      undrained, or `max` of them if that is less; and for a disciplined client they are the next ones. */
  lemma {:induction false} DrainTakesWhatThereIs(hw: Hw, es: seq<Event>, max: nat, k: nat)
    requires Fresh(hw) && DepthsOk(hw) && hw.cqDepth > 0 && max < TWO32 && Countable(hw, es)
    requires var s := Run(TWO32, Init(hw), es);
             s.dra.DIdle? && k == (if |s.completed| - |s.drained| <= max then |s.completed| - |s.drained| else max)
    ensures var s := Run(TWO32, Init(hw), es);
            var t := Run(TWO32, s, DrainOf(max, k));
            && t.dra.DIdle? && |t.drained| == |s.drained| + k && s.drained <= t.drained
            && t.completed == s.completed && t.submitted == s.submitted && t.dev == s.dev
            && (Disciplined(TWO32, Init(hw), es) ==> t.drained == s.completed[..|s.drained| + k])
  {
    DrainCounted(hw, es, max, k);
    if Disciplined(TWO32, Init(hw), es) {
      CopiesNoSubmits(k);
      DisciplinedThen(hw, es, DrainOf(max, k));
      RunAppend(TWO32, Init(hw), es, DrainOf(max, k));
      Delivery(hw, es + DrainOf(max, k));
    }
  }

  lemma {:induction false} DrainCounted(hw: Hw, es: seq<Event>, max: nat, k: nat)
    requires Fresh(hw) && DepthsOk(hw) && hw.cqDepth > 0 && max < TWO32 && Countable(hw, es)
    requires var s := Run(TWO32, Init(hw), es);
             s.dra.DIdle? && k == (if |s.completed| - |s.drained| <= max then |s.completed| - |s.drained| else max)
    ensures var s := Run(TWO32, Init(hw), es);
            var t := Run(TWO32, s, DrainOf(max, k));
            && t.dra.DIdle? && |t.drained| == |s.drained| + k && s.drained <= t.drained
            && t.completed == s.completed && t.submitted == s.submitted && t.dev == s.dev
  {
    UndrainedCount(hw, es);
    ReachedRings(hw, es);
    DrainByCount(Run(TWO32, Init(hw), es), max, k);
  }

  lemma {:induction false} DrainByCount(s: State, max: nat, k: nat)
    requires RingsOk(TWO32, s.hw) && s.hw.cqDepth > 0 && max < TWO32 && s.dra.DIdle?
    requires var d := Distance(TWO32, s.hw.cqTail, s.hw.cqHead); k == (if d <= max then d else max)
    ensures var t := Run(TWO32, s, DrainOf(max, k));
            && t.dra.DIdle? && |t.drained| == |s.drained| + k && s.drained <= t.drained
            && t.completed == s.completed && t.submitted == s.submitted && t.dev == s.dev
  {
    ModSmall(max, TWO32);
    DrainRun(TWO32, s, max);
    assert DrainEvents(TWO32, s.hw, max) == DrainOf(max, k);
  }

  lemma {:induction false} ReachedRings(hw: Hw, es: seq<Event>)
    requires Fresh(hw) && DepthsOk(hw) && Countable(hw, es)
    ensures var s := Run(TWO32, Init(hw), es);
            RingsOk(TWO32, s.hw) && s.hw.cqDepth == hw.cqDepth && |s.drained| <= |s.completed|
  {
    var u := RingsReach(hw, es);
    var v := DeviceReach(hw, es);
    assert Erase(Run(TWO32, Init(hw), es)).hw.cqDepth == v.hw.cqDepth;
    assert Erase(Run(TWO32, Init(hw), es)).hw.sqDepth == v.hw.sqDepth;
  }
}
