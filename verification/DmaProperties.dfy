/** What the submission and completion rings guarantee in every run with 32-bit counters, the
condition on the client under which they do, and what happens without it. */
module DmaProperties {
  import opened Words
  import opened DmaTransfer
  import opened DmaRings

  // ---- wraparound ----

  function WrapHw(h: Hw): Hw {
    h.(sqTail := Wrap(TWO32, h.sqTail), cqHead := Wrap(TWO32, h.cqHead), bell := Wrap(TWO32, h.bell),
       sqHead := Wrap(TWO32, h.sqHead), cqTail := Wrap(TWO32, h.cqTail))
  }

  function WrapState(s: State): State {
    s.(hw := WrapHw(s.hw))
  }

  /** Depths are 32-bit powers of two (a depth of zero is harmless: nothing ever gets through). */
  ghost predicate DepthsOk(h: Hw) {
    && h.sqDepth < TWO32 && (h.sqDepth == 0 || IsPow2(h.sqDepth))
    && h.cqDepth < TWO32 && (h.cqDepth == 0 || IsPow2(h.cqDepth))
  }

  lemma {:induction false} WrapSubmit(s: State, e: Event)
    requires DepthsOk(s.hw) && 0 <= s.hw.sqTail - s.hw.sqHead <= s.hw.sqDepth
    ensures StepSubmit(TWO32, WrapState(s), e) == WrapState(StepSubmit(0, s, e))
  {
    WrapDistance(TWO32, s.hw.sqTail, s.hw.sqHead);
    WrapSlot(TWO32, s.hw.sqDepth, s.hw.sqTail);
    WrapAdvance(TWO32, s.hw.sqTail, 1);
  }

  lemma {:induction false} WrapDrain(s: State, e: Event)
    requires DepthsOk(s.hw) && 0 <= s.hw.cqTail - s.hw.cqHead < TWO32
    ensures StepDrain(TWO32, WrapState(s), e) == WrapState(StepDrain(0, s, e))
  {
    match s.dra
    case DIdle => WrapDistance(TWO32, s.hw.cqTail, s.hw.cqHead);
    case DCopy(count, got) =>
      var h := s.hw;
      assert Slot(TWO32, h.cqDepth, Advance(TWO32, Wrap(TWO32, h.cqHead), |got|))
          == Slot(0, h.cqDepth, Advance(0, h.cqHead, |got|)) by {
        WrapAdvance(TWO32, h.cqHead, |got|);
        WrapSlot(TWO32, h.cqDepth, h.cqHead + |got|);
      }
      assert Advance(TWO32, Wrap(TWO32, h.cqHead), count) == Wrap(TWO32, Advance(0, h.cqHead, count)) by {
        WrapAdvance(TWO32, h.cqHead, count);
      }
  }

  lemma {:induction false} WrapFetch(s: State, e: Event)
    requires DepthsOk(s.hw) && 0 <= s.hw.bell - s.hw.sqHead < TWO32
    requires s.dev.Loop? && s.hw.cqTail == s.hw.sqHead
    ensures StepDevice(TWO32, WrapState(s), e) == WrapState(StepDevice(0, s, e))
  {
    WrapEqual(TWO32, s.hw.bell, s.hw.sqHead);
    WrapDistance(TWO32, s.hw.cqTail, s.hw.sqHead);
    WrapSlot(TWO32, s.hw.sqDepth, s.hw.sqHead);
  }

  lemma {:induction false} WrapDevice(s: State, e: Event)
    requires DepthsOk(s.hw) && 0 <= s.hw.bell - s.hw.sqHead < TWO32
    requires s.dev.Loop? ==> s.hw.cqTail == s.hw.sqHead
    ensures StepDevice(TWO32, WrapState(s), e) == WrapState(StepDevice(0, s, e))
  {
    var h := s.hw;
    match s.dev
    case Off =>
    case Loop => WrapFetch(s, e);
    case Fetched(_) =>
    case Executed(_) => WrapSlot(TWO32, h.cqDepth, h.cqTail);
    case Posted(_) => WrapAdvance(TWO32, h.sqHead, 1);
    case Bumped(_) => WrapAdvance(TWO32, h.cqTail, 1);
  }

  lemma {:induction false} WrapStep(s: State, e: Event)
    requires Counters(s) && DepthsOk(s.hw) && s.hw.cqTail - s.hw.cqHead < TWO32
    ensures Step(TWO32, WrapState(s), e) == WrapState(Step(0, s, e))
  {
    WrapSubmit(s, e);
    WrapDrain(s, e);
    WrapDevice(s, e);
  }

  // ---- runs of a disciplined client ----

  /** Every submission accepted in the run is begun with room for its completion, as the client reads
      it from its own `w`-sized counters. */
  ghost predicate Disciplined(w: nat, s: State, es: seq<Event>)
    decreases |es|
  {
    es == [] || (var before := es[..|es| - 1];
                 Disciplined(w, s, before) && Allowed(w, Run(w, s, before), es[|es| - 1]))
  }

  lemma {:induction false} StepDepths(w: nat, s: State, e: Event)
    ensures Step(w, s, e).hw.sqDepth == s.hw.sqDepth && Step(w, s, e).hw.cqDepth == s.hw.cqDepth
  {
  }

  /** The run with 32-bit counters is the run with unbounded ones, reduced, however long it is. */
  lemma {:induction false} Reach(hw: Hw, es: seq<Event>) returns (u: State)
    requires Fresh(hw) && DepthsOk(hw) && Disciplined(TWO32, Init(hw), es)
    ensures u == Run(0, Init(hw), es) && Inv(hw.world, u) && Delivers(u)
    ensures u.hw.sqDepth == hw.sqDepth && u.hw.cqDepth == hw.cqDepth
    ensures Run(TWO32, Init(hw), es) == WrapState(u)
    decreases |es|
  {
    u := Run(0, Init(hw), es);
    if es == [] {
      InitInv(hw);
    } else {
      var e := es[|es| - 1];
      var v := Reach(hw, es[..|es| - 1]);
      WrapDistance(TWO32, v.hw.sqTail, v.hw.cqHead);
      WrapDistance(TWO32, v.hw.sqTail, v.hw.sqHead);
      WrapStep(v, e);
      StepDelivers(hw.world, v, e);
      StepDepths(0, v, e);
    }
  }

  // ---- runs of any client, without their drains ----

  predicate IsDrain(e: Event) {
    e.DrainBegin? || e.DrainCopy? || e.DrainEnd?
  }

  /** The state without the draining side, which no step of the submitter or the device reads. */
  function Erase(s: State): State {
    s.(hw := s.hw.(cqHead := 0), dra := DIdle, drained := [])
  }

  lemma {:induction false} EraseStep(w: nat, s: State, e: Event)
    ensures Erase(Step(w, s, e)) == if IsDrain(e) then Erase(s) else Step(w, Erase(s), e)
  {
  }

  lemma {:induction false} DeviceFollowsStep(w0: World, s: State, u: State, e: Event)
    requires Inv(w0, u) && DepthsOk(u.hw) && Erase(s) == WrapState(u) && !IsDrain(e)
    ensures Erase(Step(TWO32, s, e)) == WrapState(Step(0, u, e))
  {
    EraseStep(TWO32, s, e);
    WrapSubmit(u, e);
    WrapDevice(u, e);
  }

  /** So whatever the client drains, and however many completions it leaves undrained, the rest of a
      run with 32-bit counters is that of a run with unbounded ones, reduced. */
  lemma {:induction false} DeviceReach(hw: Hw, es: seq<Event>) returns (u: State)
    requires Fresh(hw) && DepthsOk(hw)
    ensures Inv(hw.world, u) && u.hw.sqDepth == hw.sqDepth && u.hw.cqDepth == hw.cqDepth
    ensures Erase(Run(TWO32, Init(hw), es)) == WrapState(u)
    decreases |es|
  {
    if es == [] {
      u := Init(hw);
      InitInv(hw);
    } else {
      var e := es[|es| - 1];
      var v := DeviceReach(hw, es[..|es| - 1]);
      if IsDrain(e) {
        u := v;
        EraseStep(TWO32, Run(TWO32, Init(hw), es[..|es| - 1]), e);
      } else {
        u := Step(0, v, e);
        StepInv(hw.world, v, e);
        StepDepths(0, v, e);
        DeviceFollowsStep(hw.world, Run(TWO32, Init(hw), es[..|es| - 1]), v, e);
      }
    }
  }

  // ---- the theorems ----

  /** Every submission the device has yet to fetch is in its slot. */
  ghost predicate PendingIntact(s: State) {
    var n := |s.completed| + (if s.dev.Bumped? then 1 else 0);
    && (n < |s.submitted| ==> |s.hw.sq| == s.hw.sqDepth > 0)
    && forall i :: n <= i < |s.submitted| ==> s.hw.sq[i % s.hw.sqDepth] == s.submitted[i]
  }

  /** The device completes the submissions in order, its work so far is theirs executed one after
      another, and the submissions it has not read yet are intact. */
  ghost predicate DeviceInOrder(w0: World, s: State) {
    && |w0.buf| == DEV_BUF_SIZE
    && |s.completed| <= |s.outs| <= |s.submitted|
    && s.completed == Completions(s.submitted[..|s.completed|], s.outs)
    && s.hw.world == WorldAfter(w0, s.submitted[..|s.outs|], s.outs)
    && PendingIntact(s)
  }

  lemma {:induction false} DeviceInOrderIdeal(w0: World, u: State)
    requires Inv(w0, u)
    ensures DeviceInOrder(w0, u)
  {
    var n := |u.completed|;
    var all := Completions(u.submitted[..|u.outs|], u.outs);
    assert u.completed == all[..n];
    assert all[..n] == Completions(u.submitted[..n], u.outs);
    forall i | u.hw.sqHead <= i < |u.submitted| ensures u.hw.sq[i % u.hw.sqDepth] == u.submitted[i] {
      assert SqAt(u.hw, i) == u.submitted[i];
    }
  }

  /** The drains have returned the completions in order, the `i`-th answering submission `i`. */
  ghost predicate DrainedInOrder(s: State) {
    && s.drained <= s.completed
    && (s.dra.DCopy? ==> s.drained + s.dra.got <= s.completed)
    && |s.drained| <= |s.submitted| && |s.drained| <= |s.outs|
    && forall i :: 0 <= i < |s.drained| ==> Answers(s.drained[i], s.submitted[i], s.outs[i])
  }

  lemma {:induction false} DrainedInOrderIdeal(w0: World, u: State)
    requires Inv(w0, u) && Delivers(u)
    ensures DrainedInOrder(u)
  {
    DeviceInOrderIdeal(w0, u);
    forall i | 0 <= i < |u.drained| ensures Answers(u.drained[i], u.submitted[i], u.outs[i]) {
      assert u.drained[i] == u.completed[i] == Completion(u.submitted[i], u.outs[i]);
    }
  }

  /** End-to-end delivery. For every client, in every interleaving and across wraparound, the device
      works through the submissions in order and no pending one is overwritten; for a disciplined
      client the drains return their completions, in submission order, each with its cookie. */
  lemma {:induction false} Delivery(hw: Hw, es: seq<Event>)
    requires Fresh(hw) && DepthsOk(hw)
    ensures var s := Run(TWO32, Init(hw), es);
            DeviceInOrder(hw.world, s) && (Disciplined(TWO32, Init(hw), es) ==> DrainedInOrder(s))
  {
    var s := Run(TWO32, Init(hw), es);
    var u := DeviceReach(hw, es);
    DeviceInOrderIdeal(hw.world, u);
    SameDeviceSide(hw.world, s, u);
    if Disciplined(TWO32, Init(hw), es) {
      var v := Reach(hw, es);
      DrainedInOrderIdeal(hw.world, v);
    }
  }

  lemma {:induction false} SameDeviceSide(w0: World, s: State, u: State)
    requires DeviceInOrder(w0, u) && Erase(s) == WrapState(u)
    ensures DeviceInOrder(w0, s)
  {
    assert s.submitted == u.submitted && s.outs == u.outs && s.completed == u.completed && s.dev == u.dev;
    assert s.hw.sq == u.hw.sq && s.hw.sqDepth == u.hw.sqDepth && s.hw.world == u.hw.world;
  }

  /** Once everything submitted is completed, what the device has done is the submissions executed
      one after another: nothing of the schedule is left in it. */
  lemma {:induction false} AllCompleted(hw: Hw, es: seq<Event>)
    requires Fresh(hw) && DepthsOk(hw)
    ensures var s := Run(TWO32, Init(hw), es);
            |s.completed| == |s.submitted| ==>
              && |s.outs| == |s.submitted|
              && s.completed == Completions(s.submitted, s.outs)
              && s.hw.world == WorldAfter(hw.world, s.submitted, s.outs)
  {
    Delivery(hw, es);
    var s := Run(TWO32, Init(hw), es);
    if |s.completed| == |s.submitted| {
      assert s.submitted[..|s.submitted|] == s.submitted;
    }
  }

  /** How the submissions are split over doorbells and device runs cannot be seen: two runs, of any
      clients, that submit the same with the same outcomes and have completed everything agree on the
      completions, the device buffer and host memory; and if the clients are disciplined, on what
      they drained once they have drained the same number. */
  lemma {:induction false} CoalescingUnobservable(hw: Hw, es: seq<Event>, es': seq<Event>)
    requires Fresh(hw) && DepthsOk(hw)
    ensures var s, s' := Run(TWO32, Init(hw), es), Run(TWO32, Init(hw), es');
            s.submitted == s'.submitted && s.outs == s'.outs
            && |s.completed| == |s.submitted| && |s'.completed| == |s'.submitted| ==>
              && s.completed == s'.completed
              && s.hw.world == s'.hw.world
              && (Disciplined(TWO32, Init(hw), es) && Disciplined(TWO32, Init(hw), es') ==>
                  |s.drained| == |s'.drained| ==> s.drained == s'.drained)
  {
    AllCompleted(hw, es);
    AllCompleted(hw, es');
    Delivery(hw, es);
    Delivery(hw, es');
  }

  // ---- the completion ring, whatever the client does ----

  /** At the head of the processing loop the device's two counters are equal. */
  ghost predicate Lockstep(w: nat, s: State) {
    if s.dev.Bumped? then s.hw.sqHead == Advance(w, s.hw.cqTail, 1) else s.hw.sqHead == s.hw.cqTail
  }

  lemma {:induction false} RunLockstep(w: nat, hw: Hw, es: seq<Event>)
    requires Fresh(hw)
    ensures Lockstep(w, Run(w, Init(hw), es))
    ensures Run(w, Init(hw), es).hw.cqDepth == hw.cqDepth
    decreases |es|
  {
    if es == [] {
    } else {
      RunLockstep(w, hw, es[..|es| - 1]);
      StepDepths(w, Run(w, Init(hw), es[..|es| - 1]), es[|es| - 1]);
    }
  }

  /** So the full-ring guard of the loop stops the device only if the ring has no slots at all:
      it never looks at what the driver has drained. */
  lemma {:induction false} GuardNeverStops(hw: Hw, es: seq<Event>)
    requires Fresh(hw)
    ensures var s := Run(TWO32, Init(hw), es);
            s.dev.Loop? ==>
              && s.hw.cqTail == s.hw.sqHead
              && (Distance(TWO32, s.hw.cqTail, s.hw.sqHead) >= s.hw.cqDepth <==> hw.cqDepth == 0)
  {
    RunLockstep(TWO32, hw, es);
  }

  /** The last completion written into the slot of `k` when `tail` have been written. */
  function Latest(k: int, tail: int, depth: nat): int
    requires depth > 0
  {
    k + depth * ((tail - 1 - k) / depth)
  }

  lemma {:induction false} LatestFacts(k: int, tail: int, depth: nat)
    requires depth > 0 && k < tail
    ensures Latest(k, tail, depth) % depth == k % depth
    ensures k <= Latest(k, tail, depth) && tail - depth <= Latest(k, tail, depth) < tail
    ensures Latest(k, tail, depth) == k <==> tail - k <= depth
  {
    var q := (tail - 1 - k) / depth;
    assert tail - 1 - k == depth * q + (tail - 1 - k) % depth;
    ModShift(k, depth, q);
    if q >= 1 { assert depth * q >= depth; } else { assert q == 0; }
  }

  /** The completions written so far: those counted, and one posted and not yet counted. */
  function Written(s: State): seq<Cqe> {
    s.completed + if s.dev.Posted? || s.dev.Bumped? then [s.dev.cqe] else []
  }

  /** What a drain reads for completion `k` is the last completion written into its slot, which is
      completion `k` itself exactly while at most `cqDepth` completions have been written from `k` on. */
  lemma {:induction false} SlotHoldsLatest(w0: World, s: State, k: int)
    requires Inv(w0, s) && s.hw.cqDepth > 0 && 0 <= k < |Written(s)|
    ensures var j := Latest(k, |Written(s)|, s.hw.cqDepth);
            && 0 <= j < |Written(s)| && CqAt(s.hw, k) == Written(s)[j]
            && (j == k <==> |Written(s)| - k <= s.hw.cqDepth)
  {
    LatestFacts(k, |Written(s)|, s.hw.cqDepth);
    var j := Latest(k, |Written(s)|, s.hw.cqDepth);
    assert CqAt(s.hw, k) == CqAt(s.hw, j);
    if j < |s.completed| { assert CqAt(s.hw, j) == s.completed[j]; }
  }

  /** At no point of the run are 2^32 completions undrained, which 32-bit counters show as none. */
  ghost predicate FewUndrained(s: State, es: seq<Event>)
    decreases |es|
  {
    && Run(0, s, es).hw.cqTail - Run(0, s, es).hw.cqHead < TWO32
    && (es == [] || FewUndrained(s, es[..|es| - 1]))
  }

  /** So long, 32-bit counters make no difference to any client, disciplined or not. */
  lemma {:induction false} WrapRun(w0: World, s: State, es: seq<Event>)
    requires Inv(w0, s) && DepthsOk(s.hw) && FewUndrained(s, es)
    ensures Run(TWO32, WrapState(s), es) == WrapState(Run(0, s, es))
    ensures Run(0, s, es).hw.sqDepth == s.hw.sqDepth && Run(0, s, es).hw.cqDepth == s.hw.cqDepth
    decreases |es|
  {
    if es == [] {
    } else {
      var before := es[..|es| - 1];
      var v := Run(0, s, before);
      RunInv(w0, s, before);
      WrapRun(w0, s, before);
      WrapStep(v, es[|es| - 1]);
      StepDepths(0, v, es[|es| - 1]);
    }
  }

  /** The run is one of a disciplined client, or of one that at no point leaves 2^32 completions undrained. */
  ghost predicate Countable(hw: Hw, es: seq<Event>) {
    Disciplined(TWO32, Init(hw), es) || FewUndrained(Init(hw), es)
  }

  lemma {:induction false} RingsReach(hw: Hw, es: seq<Event>) returns (u: State)
    requires Fresh(hw) && DepthsOk(hw) && Countable(hw, es)
    ensures Inv(hw.world, u) && u.hw.cqTail - u.hw.cqHead < TWO32
    ensures Run(TWO32, Init(hw), es) == WrapState(u)
  {
    var s0 := Init(hw);
    if Disciplined(TWO32, s0, es) {
      u := Reach(hw, es);
    } else {
      u := Run(0, s0, es);
      InitInv(hw);
      RunInv(hw.world, s0, es);
      assert WrapState(s0) == s0;
      WrapRun(hw.world, s0, es);
    }
  }

  /** Undrained completions, in every run, disciplined or not, and at every step: completion `k` is
      intact in the ring exactly as long as at most `cqDepth` have been written from it on; after that
      its slot holds the completion of a later submission. And `cq_tail - cq_head` counts the undrained
      ones while there are fewer than 2^32. */
  lemma {:induction false} UndrainedCompletion(hw: Hw, es: seq<Event>, k: nat)
    requires Fresh(hw) && DepthsOk(hw) && hw.cqDepth > 0
    ensures var s := Run(TWO32, Init(hw), es);
            && (k < |Written(s)| ==>
                var j := Latest(k, |Written(s)|, hw.cqDepth);
                && |s.hw.cq| == hw.cqDepth && 0 <= j < |Written(s)|
                && s.hw.cq[k % hw.cqDepth] == Written(s)[j]
                && (j == k <==> |Written(s)| - k <= hw.cqDepth))
            && (Countable(hw, es) ==>
                Distance(TWO32, s.hw.cqTail, s.hw.cqHead) == |s.completed| - |s.drained|)
  {
    var s := Run(TWO32, Init(hw), es);
    var u := DeviceReach(hw, es);
    assert s.completed == u.completed && s.dev == u.dev && s.hw.cq == u.hw.cq;
    if k < |Written(u)| { SlotHoldsLatest(hw.world, u, k); }
    if Countable(hw, es) { UndrainedCount(hw, es); }
  }

  lemma {:induction false} UndrainedCount(hw: Hw, es: seq<Event>)
    requires Fresh(hw) && DepthsOk(hw) && Countable(hw, es)
    ensures var s := Run(TWO32, Init(hw), es);
            Distance(TWO32, s.hw.cqTail, s.hw.cqHead) == |s.completed| - |s.drained|
  {
    var u := RingsReach(hw, es);
    WrapDistance(TWO32, u.hw.cqTail, u.hw.cqHead);
  }
}
