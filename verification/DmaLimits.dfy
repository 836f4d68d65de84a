/** Where the delivery guarantee ends: the device never looks at what the driver has drained, so a
client that does not keep count loses completions. */
module DmaLimits {
  import opened Words
  import opened DmaTransfer
  import opened DmaRings
  import opened DmaProperties
  import opened DmaCalls

  /** Nobody is inside a call. */
  predicate Idle(s: State) {
    s.sub.SIdle? && s.dra.DIdle? && s.dev.Off?
  }

  /** The device works through everything the doorbell announced. */
  lemma {:induction false} PendingGuards(h: Hw, outs: seq<Outcome>)
    requires RingsOk(0, h) && h.cqDepth > 0 && (outs != [] ==> h.sqDepth > 0)
    requires h.cqTail == h.sqHead && h.bell == h.sqHead + |outs|
    ensures Guards(0, h, outs)
    ensures var r := ProcessCall(0, h, outs);
            && r.sqHead == r.cqTail == r.bell == h.bell && r.sqTail == h.sqTail && r.cqHead == h.cqHead
            && r.sqDepth == h.sqDepth && r.cqDepth == h.cqDepth
    decreases |outs|
  {
    if outs == [] {
    } else {
      PendingGuards(ProcessOne(0, h, outs[0]), outs[1..]);
    }
  }

  function ProcessEvents(outs: seq<Outcome>): seq<Event> {
    [Doorbell, DevStart] + LoopEvents(outs) + [DevFetch]
  }

  lemma {:induction false} ProcessRunState(s: State, outs: seq<Outcome>)
    requires RingsOk(0, s.hw) && s.dev.Off? && s.hw.cqDepth > 0 && (outs != [] ==> s.hw.sqDepth > 0)
    requires s.hw.cqTail == s.hw.sqHead && |outs| == s.hw.sqTail - s.hw.sqHead
    ensures var t := Run(0, s, ProcessEvents(outs));
            && t.dev.Off? && t.sub == s.sub && t.dra == s.dra
            && t.hw.cqTail == t.hw.sqHead == t.hw.sqTail == s.hw.sqTail && t.hw.cqHead == s.hw.cqHead
            && t.hw.sqDepth == s.hw.sqDepth && t.hw.cqDepth == s.hw.cqDepth
            && t.submitted == s.submitted && t.drained == s.drained && t.outs == s.outs + outs
  {
    RunTwo(0, s, Doorbell, DevStart);
    var s2 := s.(hw := s.hw.(bell := s.hw.sqTail), dev := Loop);
    assert Run(0, s, [Doorbell, DevStart]) == s2;
    PendingGuards(s2.hw, outs);
    LoopRun(0, s2, outs);
    AfterLoopFacts(0, s2, outs);
    RunAppend(0, s, [Doorbell, DevStart], LoopEvents(outs));
    RunSnoc(0, s, [Doorbell, DevStart] + LoopEvents(outs), DevFetch);
  }

  /** A doorbell and the device run it triggers, with nobody interfering. */
  lemma {:induction false} ProcessRun(w0: World, s: State, outs: seq<Outcome>)
    requires Inv(w0, s) && Idle(s) && DepthsOk(s.hw) && s.hw.cqDepth > 0
    requires |outs| == s.hw.sqTail - s.hw.sqHead
    ensures var t := Run(0, s, ProcessEvents(outs));
            && Inv(w0, t) && Idle(t)
            && t.hw.cqTail == t.hw.sqHead == t.hw.sqTail == s.hw.sqTail && t.hw.cqHead == s.hw.cqHead
            && t.hw.sqDepth == s.hw.sqDepth && t.hw.cqDepth == s.hw.cqDepth
            && t.submitted == s.submitted && t.drained == s.drained && t.outs == s.outs + outs
  {
    RunInv(w0, s, ProcessEvents(outs));
    ProcessRunState(s, outs);
  }

  /** Submit `x`, let the device work through everything, drain one completion. */
  function SubmitAndDrainOne(x: Sqe, outs: seq<Outcome>): seq<Event> {
    SubmitEvents(x) + ProcessEvents(outs) + [DrainBegin(1), DrainCopy, DrainEnd]
  }

  ghost predicate NoSubmits(es: seq<Event>) {
    forall e :: e in es ==> !e.SubmitBegin?
  }

  lemma {:induction false} RunDelivers(w0: World, s: State, es: seq<Event>)
    requires Inv(w0, s) && Delivers(s)
    requires forall i :: 0 < i < |es| ==> !es[i].SubmitBegin?
    requires es != [] ==> Allowed(0, s, es[0])
    ensures Inv(w0, Run(0, s, es)) && Delivers(Run(0, s, es))
    decreases |es|
  {
    if es == [] {
    } else {
      var before := es[..|es| - 1];
      RunDelivers(w0, s, before);
      assert before == [] ==> Run(0, s, before) == s;
      StepDelivers(w0, Run(0, s, before), es[|es| - 1]);
    }
  }

  lemma {:induction false} LoopHasNoSubmits(outs: seq<Outcome>)
    ensures NoSubmits(LoopEvents(outs))
    decreases |outs|
  {
    if outs == [] {
    } else {
      LoopHasNoSubmits(outs[1..]);
    }
  }

  lemma {:induction false} OnlyFirstSubmits(x: Sqe, outs: seq<Outcome>)
    ensures var es := SubmitAndDrainOne(x, outs);
            es != [] && es[0] == SubmitBegin(x) && forall i :: 0 < i < |es| ==> !es[i].SubmitBegin?
  {
    LoopHasNoSubmits(outs);
    var es, loop := SubmitAndDrainOne(x, outs), LoopEvents(outs);
    forall i | 0 < i < |es| ensures !es[i].SubmitBegin? {
      if 5 <= i < 5 + |loop| {
        assert es[i] == loop[i - 5];
        assert loop[i - 5] in loop;
      }
    }
  }

  /** After the submission and the device's run: the state from which one completion is drained. */
  lemma {:induction false} BeforeDrain(w0: World, s: State, x: Sqe, outs: seq<Outcome>) returns (t: State)
    requires Inv(w0, s) && Idle(s) && DepthsOk(s.hw) && s.hw.cqDepth > 0
    requires s.hw.sqTail - s.hw.sqHead < s.hw.sqDepth && |outs| == s.hw.sqTail + 1 - s.hw.sqHead
    ensures t == Run(0, s, SubmitEvents(x) + ProcessEvents(outs))
    ensures Inv(w0, t) && Idle(t) && DepthsOk(t.hw) && t.hw.cqDepth == s.hw.cqDepth
    ensures t.hw.cqTail == s.hw.sqTail + 1 && t.hw.cqHead == s.hw.cqHead
    ensures t.submitted == s.submitted + [x] && t.drained == s.drained
  {
    AcceptedSubmit(w0, s, x);
    var s1 := Run(0, s, SubmitEvents(x));
    ProcessRun(w0, s1, outs);
    RunAppend(0, s, SubmitEvents(x), ProcessEvents(outs));
    t := Run(0, s1, ProcessEvents(outs));
  }

  lemma {:induction false} DrainOne(w0: World, t: State)
    requires Inv(w0, t) && Idle(t) && t.hw.cqDepth > 0 && t.hw.cqHead < t.hw.cqTail
    ensures var u := Run(0, t, [DrainBegin(1), DrainCopy, DrainEnd]);
            u.drained == t.drained + [CqAt(t.hw, t.hw.cqHead)] && u.completed == t.completed
  {
    RunThree(0, t, DrainBegin(1), DrainCopy, DrainEnd);
    var t1, c := t.(dra := DCopy(1, [])), CqAt(t.hw, t.hw.cqHead);
    assert Step(0, t, DrainBegin(1)) == t1 by { ModSmall(1, TWO32); }
    assert Step(0, t1, DrainCopy) == t.(dra := DCopy(1, [c])) by { assert [] + [c] == [c]; }
    DrainFinish(0, t, 1, [c]);
  }

  lemma {:induction false} CompletedCookie(w0: World, t: State, i: nat)
    requires Inv(w0, t) && i < |t.completed|
    ensures t.completed[i].cookie == t.submitted[i].cookie
  {
    DeviceInOrderIdeal(w0, t);
    assert t.completed[i] == Completion(t.submitted[i], t.outs[i]);
  }

  /** The exact condition. Take any idle state a disciplined client can be in, with room in the
      submission ring, and submit once more. If fewer than `cqDepth` submissions were undrained the
      next drain returns the right completion; otherwise it returns the new submission's completion
      in place of the oldest, which is lost. */
  lemma {:induction false} ExactCondition(w0: World, s: State, x: Sqe, outs: seq<Outcome>)
    requires Inv(w0, s) && Delivers(s) && Idle(s) && DepthsOk(s.hw) && s.hw.cqDepth > 0
    requires s.hw.sqTail - s.hw.sqHead < s.hw.sqDepth && |outs| == s.hw.sqTail + 1 - s.hw.sqHead
    requires forall i :: s.hw.cqHead <= i < s.hw.sqTail ==> s.submitted[i].cookie != x.cookie
    ensures var u := Run(0, s, SubmitAndDrainOne(x, outs));
            u.drained <= u.completed <==> s.hw.sqTail - s.hw.cqHead < s.hw.cqDepth
  {
    var es := SubmitAndDrainOne(x, outs);
    if s.hw.sqTail - s.hw.cqHead < s.hw.cqDepth {
      OnlyFirstSubmits(x, outs);
      RunDelivers(w0, s, es);
    } else {
      LosesOldest(w0, s, x, outs);
      assert !(Run(0, s, es).drained <= Run(0, s, es).completed);
    }
  }

  /** The failing half: the drain returns the new submission's completion for the oldest one. */
  lemma {:induction false} LosesOldest(w0: World, s: State, x: Sqe, outs: seq<Outcome>)
    requires Inv(w0, s) && Idle(s) && DepthsOk(s.hw) && s.hw.cqDepth > 0
    requires s.hw.sqTail - s.hw.sqHead < s.hw.sqDepth && |outs| == s.hw.sqTail + 1 - s.hw.sqHead
    requires s.hw.sqTail - s.hw.cqHead == s.hw.cqDepth
    requires s.submitted[s.hw.cqHead].cookie != x.cookie
    ensures var u := Run(0, s, SubmitAndDrainOne(x, outs));
            && |u.drained| == |s.drained| + 1 <= |u.completed|
            && u.drained[|s.drained|].cookie == x.cookie != u.completed[|s.drained|].cookie
  {
    var t := BeforeDrain(w0, s, x, outs);
    DrainsWrongOne(w0, t, x);
    ThenDrainOne(s, x, outs);
  }

  lemma {:induction false} ThenDrainOne(s: State, x: Sqe, outs: seq<Outcome>)
    ensures Run(0, s, SubmitAndDrainOne(x, outs))
         == Run(0, Run(0, s, SubmitEvents(x) + ProcessEvents(outs)), [DrainBegin(1), DrainCopy, DrainEnd])
  {
    RunAppend(0, s, SubmitEvents(x) + ProcessEvents(outs), [DrainBegin(1), DrainCopy, DrainEnd]);
  }

  /** With one completion too many in the ring, the next drain returns the newest for the oldest. */
  lemma {:induction false} DrainsWrongOne(w0: World, t: State, x: Sqe)
    requires Inv(w0, t) && Idle(t) && t.hw.cqDepth > 0
    requires t.hw.cqTail == t.hw.cqHead + t.hw.cqDepth + 1 == |t.submitted|
    requires t.submitted[t.hw.cqHead].cookie != x.cookie && t.submitted[t.hw.cqTail - 1] == x
    ensures var u := Run(0, t, [DrainBegin(1), DrainCopy, DrainEnd]);
            && |u.drained| == |t.drained| + 1 <= |u.completed|
            && u.drained[|t.drained|].cookie == x.cookie != u.completed[|t.drained|].cookie
  {
    var h := t.hw.cqHead;
    DrainOne(w0, t);
    SlotHoldsLatest(w0, t, h);
    LatestOneLap(h, t.hw.cqDepth);
    CompletedCookie(w0, t, h);
    CompletedCookie(w0, t, t.hw.cqTail - 1);
  }

  lemma {:induction false} LatestOneLap(k: int, depth: nat)
    requires depth > 0
    ensures Latest(k, k + depth + 1, depth) == k + depth
  {
    DivModUnique(depth, depth, 1, 0);
  }

  // ---- the same with 32-bit counters ----

  lemma {:induction false} StepMonotone(w0: World, s: State, e: Event)
    requires Inv(w0, s)
    ensures var t := Step(0, s, e);
            s.hw.sqTail <= t.hw.sqTail && s.hw.cqHead <= t.hw.cqHead
  {
  }

  lemma {:induction false} RunMonotone(w0: World, s: State, es: seq<Event>)
    requires Inv(w0, s)
    ensures var t := Run(0, s, es);
            && s.hw.sqTail <= t.hw.sqTail && s.hw.cqHead <= t.hw.cqHead
            && t.hw.sqDepth == s.hw.sqDepth && t.hw.cqDepth == s.hw.cqDepth
    decreases |es|
  {
    if es == [] {
    } else {
      var before := es[..|es| - 1];
      RunMonotone(w0, s, before);
      RunInv(w0, s, before);
      StepMonotone(w0, Run(0, s, before), es[|es| - 1]);
      StepDepths(0, Run(0, s, before), es[|es| - 1]);
    }
  }

  lemma {:induction false} FewSubmissions(w0: World, s: State, es: seq<Event>)
    requires Inv(w0, s) && Run(0, s, es).hw.sqTail - s.hw.cqHead < TWO32
    ensures FewUndrained(s, es)
    decreases |es|
  {
    RunInv(w0, s, es);
    RunMonotone(w0, s, es);
    if es == [] {
    } else {
      var before := es[..|es| - 1];
      RunInv(w0, s, before);
      StepMonotone(w0, Run(0, s, before), es[|es| - 1]);
      FewSubmissions(w0, s, before);
    }
  }

  lemma {:induction false} WrapRunFrom(w0: World, s: State, es: seq<Event>)
    requires Inv(w0, s) && DepthsOk(s.hw) && Run(0, s, es).hw.sqTail - s.hw.cqHead < TWO32
    ensures Run(TWO32, WrapState(s), es) == WrapState(Run(0, s, es))
  {
    FewSubmissions(w0, s, es);
    WrapRun(w0, s, es);
  }

  lemma {:induction false} DepthLeavesRoom(n: nat)
    requires n < TWO32 && IsPow2(n)
    ensures n + 1 < TWO32
  {
    OddNotPow2(TWO32 - 1);
  }

  /** The exact condition, as the client's own 32-bit counters show it, after any run of a
      disciplined client. */
  lemma {:induction false} SubmissionNeedsRoom(hw: Hw, es: seq<Event>, x: Sqe, outs: seq<Outcome>)
    requires Fresh(hw) && DepthsOk(hw) && hw.cqDepth > 0 && Disciplined(TWO32, Init(hw), es)
    requires var s := Run(TWO32, Init(hw), es);
             && Idle(s)
             && Distance(TWO32, s.hw.sqTail, s.hw.sqHead) < hw.sqDepth
             && |outs| == Distance(TWO32, s.hw.sqTail, s.hw.sqHead) + 1
             && forall i :: |s.drained| <= i < |s.submitted| ==> s.submitted[i].cookie != x.cookie
    ensures var s := Run(TWO32, Init(hw), es);
            var t := Run(TWO32, s, SubmitAndDrainOne(x, outs));
            t.drained <= t.completed <==> Distance(TWO32, s.hw.sqTail, s.hw.cqHead) < hw.cqDepth
  {
    var u := Reach(hw, es);
    WrapDistance(TWO32, u.hw.sqTail, u.hw.sqHead);
    WrapDistance(TWO32, u.hw.sqTail, u.hw.cqHead);
    ExactCondition(hw.world, u, x, outs);
    SubmitGrows(hw.world, u, x, outs);
    DepthLeavesRoom(hw.cqDepth);
    WrapRunFrom(hw.world, u, SubmitAndDrainOne(x, outs));
  }

  lemma {:induction false} SubmitGrows(w0: World, s: State, x: Sqe, outs: seq<Outcome>)
    requires Inv(w0, s) && Idle(s) && DepthsOk(s.hw) && s.hw.cqDepth > 0
    requires s.hw.sqTail - s.hw.sqHead < s.hw.sqDepth && |outs| == s.hw.sqTail + 1 - s.hw.sqHead
    ensures Run(0, s, SubmitAndDrainOne(x, outs)).hw.sqTail == s.hw.sqTail + 1
  {
    var t := BeforeDrain(w0, s, x, outs);
    ThenDrainOne(s, x, outs);
    RunThree(0, t, DrainBegin(1), DrainCopy, DrainEnd);
  }

  // ---- submit all, process, submit all, process, and only then drain ----

  function Round(a: Sqe, b: Sqe): seq<Event> {
    SubmitEvents(a) + SubmitEvents(b) + ProcessEvents([Done, Done])
  }

  lemma {:induction false} AcceptedSubmit(w0: World, s: State, x: Sqe)
    requires Inv(w0, s) && Idle(s) && DepthsOk(s.hw) && s.hw.sqTail - s.hw.sqHead < s.hw.sqDepth
    ensures var t := Run(0, s, SubmitEvents(x));
            && Inv(w0, t) && Idle(t) && DepthsOk(t.hw)
            && t.hw == s.hw.(sq := t.hw.sq, sqTail := s.hw.sqTail + 1)
            && t.submitted == s.submitted + [x] && t.outs == s.outs && t.drained == s.drained
  {
    SubmitRun(0, s, x);
    RunInv(w0, s, SubmitEvents(x));
  }

  lemma {:induction false} TwoSubmits(w0: World, s: State, a: Sqe, b: Sqe)
    requires Inv(w0, s) && Idle(s) && DepthsOk(s.hw) && s.hw.sqDepth == 2 && s.hw.sqTail == s.hw.sqHead
    ensures var t := Run(0, s, SubmitEvents(a) + SubmitEvents(b));
            && Inv(w0, t) && Idle(t) && DepthsOk(t.hw)
            && t.hw == s.hw.(sq := t.hw.sq, sqTail := s.hw.sqTail + 2)
            && t.submitted == s.submitted + [a, b] && t.outs == s.outs && t.drained == s.drained
  {
    AcceptedSubmit(w0, s, a);
    AcceptedSubmit(w0, Run(0, s, SubmitEvents(a)), b);
    RunAppend(0, s, SubmitEvents(a), SubmitEvents(b));
    assert s.submitted + [a] + [b] == s.submitted + [a, b];
  }

  lemma {:induction false} RoundRun(w0: World, s: State, a: Sqe, b: Sqe)
    requires Inv(w0, s) && Idle(s) && DepthsOk(s.hw) && s.hw.sqDepth == s.hw.cqDepth == 2
    requires s.hw.sqTail == s.hw.sqHead
    ensures var t := Run(0, s, Round(a, b));
            && Inv(w0, t) && Idle(t) && DepthsOk(t.hw) && t.hw.sqDepth == t.hw.cqDepth == 2
            && t.hw.sqTail == t.hw.sqHead == t.hw.cqTail == s.hw.sqTail + 2 && t.hw.cqHead == s.hw.cqHead
            && t.submitted == s.submitted + [a, b] && t.outs == s.outs + [Done, Done] && t.drained == s.drained
  {
    TwoSubmits(w0, s, a, b);
    ProcessRun(w0, Run(0, s, SubmitEvents(a) + SubmitEvents(b)), [Done, Done]);
    RunAppend(0, s, SubmitEvents(a) + SubmitEvents(b), ProcessEvents([Done, Done]));
  }

  lemma {:induction false} OverrunEntry(w0: World, s: State, i: nat)
    requires Inv(w0, s) && Idle(s) && DepthsOk(s.hw) && s.hw.cqDepth == 2 && i < 4
    requires s.hw.cqTail == 4 && s.hw.cqHead == 0
    ensures EntryAt(0, s.hw, i) == s.completed[if i % 2 == 0 then 2 else 3]
  {
    EntryIsCell(s.hw, i);
    SlotHoldsLatest(w0, s, i);
    LatestOfFour(i);
  }

  lemma {:induction false} EntryIsCell(h: Hw, i: nat)
    requires RingsOk(0, h) && h.cqDepth > 0
    ensures EntryAt(0, h, i) == CqAt(h, h.cqHead + i)
  {
  }

  lemma {:induction false} LatestOfFour(i: nat)
    requires i < 4
    ensures Latest(i, 4, 2) == if i % 2 == 0 then 2 else 3
  {
    assert i == 0 || i == 1 || i == 2 || i == 3;
  }

  lemma {:induction false} OverrunEntries(w0: World, s: State)
    requires Inv(w0, s) && Idle(s) && DepthsOk(s.hw) && s.hw.cqDepth == 2
    requires s.hw.cqTail == 4 && s.hw.cqHead == 0
    ensures Entries(0, s.hw, 4) == [s.completed[2], s.completed[3], s.completed[2], s.completed[3]]
  {
    OverrunEntry(w0, s, 0);
    OverrunEntry(w0, s, 1);
    OverrunEntry(w0, s, 2);
    OverrunEntry(w0, s, 3);
    var out := Entries(0, s.hw, 4);
    assert out == [out[0], out[1], out[2], out[3]];
  }

  lemma {:induction false} OverrunDrain(w0: World, s: State)
    requires Inv(w0, s) && Idle(s) && DepthsOk(s.hw) && s.hw.cqDepth == 2
    requires s.hw.cqTail == 4 && s.hw.cqHead == 0 && s.drained == []
    ensures var t := Run(0, s, DrainEvents(0, s.hw, 4));
            && t.drained == [s.completed[2], s.completed[3], s.completed[2], s.completed[3]]
            && t.hw.sqTail == s.hw.sqTail
  {
    DrainRun(0, s, 4);
    ModSmall(4, TWO32);
    OverrunEntries(w0, s);
  }

  function Overrun(a: Sqe, b: Sqe, c: Sqe, d: Sqe): seq<Event> {
    Round(a, b) + Round(c, d)
  }

  /** With two rings of two slots, submitting and processing twice before draining loses the first
      two completions and returns the other two twice. */
  lemma {:induction false} OverrunLosesCompletions(hw: Hw, a: Sqe, b: Sqe, c: Sqe, d: Sqe)
    requires Fresh(hw) && hw.sqDepth == hw.cqDepth == 2
    ensures var s := Run(TWO32, Init(hw), Overrun(a, b, c, d));
            var t := Run(TWO32, s, DrainEvents(TWO32, s.hw, 4));
            && s.completed == Completions([a, b, c, d], [Done, Done, Done, Done])
            && t.drained == [s.completed[2], s.completed[3], s.completed[2], s.completed[3]]
  {
    assert Pow2(1) == 2;
    InitInv(hw);
    var s0 := Init(hw);
    RoundRun(hw.world, s0, a, b);
    RoundRun(hw.world, Run(0, s0, Round(a, b)), c, d);
    RunAppend(0, s0, Round(a, b), Round(c, d));
    var s := Run(0, s0, Overrun(a, b, c, d));
    OverrunCompleted(hw.world, s, a, b, c, d);
    OverrunDrain(hw.world, s);
    assert WrapState(s0) == s0;
    WrapRunFrom(hw.world, s0, Overrun(a, b, c, d));
    WrapDistance(TWO32, s.hw.cqTail, s.hw.cqHead);
    assert DrainEvents(TWO32, WrapState(s).hw, 4) == DrainEvents(0, s.hw, 4);
    WrapRunFrom(hw.world, s, DrainEvents(0, s.hw, 4));
  }

  lemma {:induction false} OverrunCompleted(w0: World, s: State, a: Sqe, b: Sqe, c: Sqe, d: Sqe)
    requires Inv(w0, s) && Idle(s) && s.submitted == [] + [a, b] + [c, d]
    requires s.outs == [] + [Done, Done] + [Done, Done]
    ensures s.completed == Completions([a, b, c, d], [Done, Done, Done, Done])
  {
    assert s.submitted == [a, b, c, d] && s.outs == [Done, Done, Done, Done];
    assert s.submitted[..|s.outs|] == s.submitted && s.completed + [] == s.completed;
  }
}

