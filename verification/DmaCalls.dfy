/** Whole calls: `engine_submit`, one run of the device's processing loop and `engine_drain`, each as
a function on the rings and as an uninterrupted run of the interleaving machine. */
module DmaCalls {
  import opened Words
  import opened Runs
  import opened DmaTransfer
  import opened DmaRings
  import opened DmaProperties

  /** Rings whose masked counters are always slots. */
  ghost predicate RingsOk(w: nat, h: Hw) {
    && (w == 0 || w == TWO32) && DepthsOk(h)
    && |h.sq| == h.sqDepth && |h.cq| == h.cqDepth && |h.world.buf| == DEV_BUF_SIZE
  }

  ghost function SubmitCall(w: nat, h: Hw, sqe: Sqe): (r: (Hw, bool))
    requires RingsOk(w, h)
    ensures RingsOk(w, r.0)
  {
    if Distance(w, h.sqTail, h.sqHead) >= h.sqDepth || h.sqDepth == 0 then (h, false) else
    SlotInRange(w, h.sqDepth, h.sqTail);
    (h.(sq := h.sq[Slot(w, h.sqDepth, h.sqTail) := sqe], sqTail := Advance(w, h.sqTail, 1)), true)
  }

  /** The submission the device fetches next. */
  ghost function NextSqe(w: nat, h: Hw): Sqe
    requires RingsOk(w, h) && h.sqDepth > 0
  {
    SlotInRange(w, h.sqDepth, h.sqHead);
    h.sq[Slot(w, h.sqDepth, h.sqHead)]
  }

  /** One iteration of the processing loop. */
  ghost function ProcessOne(w: nat, h: Hw, o: Outcome): (r: Hw)
    requires RingsOk(w, h) && h.sqDepth > 0 && h.cqDepth > 0
    ensures RingsOk(w, r)
  {
    SlotInRange(w, h.cqDepth, h.cqTail);
    h.(world := Transfer(h.world, NextSqe(w, h), o),
       cq := h.cq[Slot(w, h.cqDepth, h.cqTail) := Completion(NextSqe(w, h), o)],
       sqHead := Advance(w, h.sqHead, 1), cqTail := Advance(w, h.cqTail, 1))
  }

  /** The loop goes on: something is submitted and the (blind) full-ring guard lets it. */
  predicate LoopGuard(w: nat, h: Hw) {
    h.sqHead != h.bell && Distance(w, h.cqTail, h.sqHead) < h.cqDepth && h.sqDepth > 0
  }

  /** The processing loop, its data transfers going as `outs` says. */
  ghost function ProcessCall(w: nat, h: Hw, outs: seq<Outcome>): (r: Hw)
    requires RingsOk(w, h)
    ensures RingsOk(w, r)
    decreases |outs|
  {
    if outs == [] || !LoopGuard(w, h) || h.cqDepth == 0 then h
    else ProcessCall(w, ProcessOne(w, h, outs[0]), outs[1..])
  }

  /** The `n` entries of the completion ring from `cqHead` on. */
  ghost function Entries(w: nat, h: Hw, n: nat): (cs: seq<Cqe>)
    requires RingsOk(w, h) && h.cqDepth > 0
    ensures |cs| == n
  {
    seq(n, i requires 0 <= i < n => EntryAt(w, h, i))
  }

  ghost function EntryAt(w: nat, h: Hw, i: int): Cqe
    requires RingsOk(w, h) && h.cqDepth > 0
  {
    SlotInRange(w, h.cqDepth, Advance(w, h.cqHead, i));
    h.cq[Slot(w, h.cqDepth, Advance(w, h.cqHead, i))]
  }

  function DrainCount(w: nat, h: Hw, max: nat): int {
    Min(Distance(w, h.cqTail, h.cqHead), max % TWO32)
  }

  ghost function DrainCall(w: nat, h: Hw, max: nat): (r: (Hw, seq<Cqe>))
    requires RingsOk(w, h) && h.cqDepth > 0
  {
    var n := DrainCount(w, h, max);
    if n <= 0 then (h, []) else (h.(cqHead := Advance(w, h.cqHead, n)), Entries(w, h, n))
  }

  // ---- the calls as runs ----

  lemma {:induction false} RunSnoc(w: nat, s: State, es: seq<Event>, e: Event)
    ensures Run(w, s, es + [e]) == Step(w, Run(w, s, es), e)
  {
    assert (es + [e])[..|es|] == es;
  }

  lemma {:induction false} RunOne(w: nat, s: State, a: Event)
    ensures Run(w, s, [a]) == Step(w, s, a)
  {
    RunSnoc(w, s, [], a);
    assert [] + [a] == [a];
  }

  lemma {:induction false} RunTwo(w: nat, s: State, a: Event, b: Event)
    ensures Run(w, s, [a, b]) == Step(w, Step(w, s, a), b)
  {
    RunOne(w, s, a);
    RunSnoc(w, s, [a], b);
    assert [a] + [b] == [a, b];
  }

  lemma {:induction false} RunThree(w: nat, s: State, a: Event, b: Event, c: Event)
    ensures Run(w, s, [a, b, c]) == Step(w, Step(w, Step(w, s, a), b), c)
  {
    RunTwo(w, s, a, b);
    RunSnoc(w, s, [a, b], c);
    assert [a, b] + [c] == [a, b, c];
  }

  function StepOf(w: nat): (State, Event) -> State {
    (s: State, e: Event) => Step(w, s, e)
  }

  lemma {:induction false} RunIsFold(w: nat, s: State, es: seq<Event>)
    ensures Run(w, s, es) == Fold(StepOf(w), s, es)
    decreases |es|
  {
    if es == [] {
    } else {
      RunIsFold(w, s, es[..|es| - 1]);
    }
  }

  lemma {:induction false} RunAppend(w: nat, s: State, a: seq<Event>, b: seq<Event>)
    ensures Run(w, s, a + b) == Run(w, Run(w, s, a), b)
  {
    RunIsFold(w, s, a + b);
    RunIsFold(w, s, a);
    RunIsFold(w, Run(w, s, a), b);
    FoldAppend(StepOf(w), s, a, b);
  }

  function SubmitEvents(sqe: Sqe): seq<Event> {
    [SubmitBegin(sqe), SubmitWrite, SubmitBump]
  }

  /** An uninterrupted submit, accepted exactly when the submission ring has room. */
  lemma {:induction false} SubmitRun(w: nat, s: State, sqe: Sqe)
    requires RingsOk(w, s.hw) && s.sub.SIdle? && (w == 0 ==> s.hw.sqHead <= s.hw.sqTail)
    ensures var (h, ok) := SubmitCall(w, s.hw, sqe);
            Run(w, s, SubmitEvents(sqe))
              == s.(hw := h, submitted := if ok then s.submitted + [sqe] else s.submitted)
  {
    RunThree(w, s, SubmitBegin(sqe), SubmitWrite, SubmitBump);
    if s.hw.sqDepth > 0 { SlotInRange(w, s.hw.sqDepth, s.hw.sqTail); }
  }

  function OneSqe(o: Outcome): seq<Event> {
    [DevFetch, DevExecute(o), DevPost] + [DevBumpSq, DevBumpCq]
  }

  function LoopEvents(outs: seq<Outcome>): seq<Event>
    decreases |outs|
  {
    if outs == [] then [] else OneSqe(outs[0]) + LoopEvents(outs[1..])
  }

  ghost function AfterOne(w: nat, s: State, o: Outcome): State
    requires RingsOk(w, s.hw) && s.hw.sqDepth > 0 && s.hw.cqDepth > 0
  {
    s.(hw := ProcessOne(w, s.hw, o), outs := s.outs + [o],
       completed := s.completed + [Completion(NextSqe(w, s.hw), o)])
  }

  lemma {:induction false} OneSqeHead(w: nat, s: State, o: Outcome)
    requires RingsOk(w, s.hw) && s.dev.Loop? && LoopGuard(w, s.hw) && s.hw.cqDepth > 0
    ensures var x := NextSqe(w, s.hw);
            var j := Slot(w, s.hw.cqDepth, s.hw.cqTail);
            && 0 <= j < |s.hw.cq|
            && Run(w, s, [DevFetch, DevExecute(o), DevPost])
               == s.(hw := s.hw.(world := Transfer(s.hw.world, x, o), cq := s.hw.cq[j := Completion(x, o)]),
                     outs := s.outs + [o], dev := Posted(Completion(x, o)))
  {
    RunThree(w, s, DevFetch, DevExecute(o), DevPost);
    SlotInRange(w, s.hw.sqDepth, s.hw.sqHead);
    SlotInRange(w, s.hw.cqDepth, s.hw.cqTail);
  }

  lemma {:induction false} OneSqeRun(w: nat, s: State, o: Outcome)
    requires RingsOk(w, s.hw) && s.dev.Loop? && LoopGuard(w, s.hw) && s.hw.cqDepth > 0
    ensures Run(w, s, OneSqe(o)) == AfterOne(w, s, o)
  {
    OneSqeHead(w, s, o);
    var s3 := Run(w, s, [DevFetch, DevExecute(o), DevPost]);
    RunAppend(w, s, [DevFetch, DevExecute(o), DevPost], [DevBumpSq, DevBumpCq]);
    RunTwo(w, s3, DevBumpSq, DevBumpCq);
  }

  /** The state after the whole loop. */
  ghost function AfterLoop(w: nat, s: State, outs: seq<Outcome>): State
    requires RingsOk(w, s.hw) && Guards(w, s.hw, outs)
    decreases |outs|
  {
    if outs == [] then s else AfterLoop(w, AfterOne(w, s, outs[0]), outs[1..])
  }

  lemma {:induction false} LoopRun(w: nat, s: State, outs: seq<Outcome>)
    requires RingsOk(w, s.hw) && s.dev.Loop? && Guards(w, s.hw, outs)
    ensures Run(w, s, LoopEvents(outs)) == AfterLoop(w, s, outs)
    decreases |outs|
  {
    if outs == [] {
    } else {
      OneSqeRun(w, s, outs[0]);
      RunAppend(w, s, OneSqe(outs[0]), LoopEvents(outs[1..]));
      LoopRun(w, AfterOne(w, s, outs[0]), outs[1..]);
    }
  }

  /** The loop's whole work is the processing call's; the logs grow with it. */
  lemma {:induction false} AfterLoopFacts(w: nat, s: State, outs: seq<Outcome>)
    requires RingsOk(w, s.hw) && Guards(w, s.hw, outs)
    ensures var t := AfterLoop(w, s, outs);
            && t.hw == ProcessCall(w, s.hw, outs)
            && t.dev == s.dev && t.sub == s.sub && t.dra == s.dra
            && t.submitted == s.submitted && t.drained == s.drained && t.outs == s.outs + outs
    decreases |outs|
  {
    if outs == [] {
      assert s.outs + outs == s.outs;
    } else {
      AfterLoopFacts(w, AfterOne(w, s, outs[0]), outs[1..]);
      assert s.outs + [outs[0]] + outs[1..] == s.outs + outs;
    }
  }

  /** The guard holds before each of the `|outs|` iterations. */
  ghost predicate Guards(w: nat, h: Hw, outs: seq<Outcome>)
    requires RingsOk(w, h)
    decreases |outs|
  {
    outs == [] || (LoopGuard(w, h) && h.cqDepth > 0 && Guards(w, ProcessOne(w, h, outs[0]), outs[1..]))
  }

  function Times(e: Event, n: nat): seq<Event> {
    if n == 0 then [] else Times(e, n - 1) + [e]
  }

  function DrainEvents(w: nat, h: Hw, max: nat): seq<Event> {
    [DrainBegin(max)] + Times(DrainCopy, if DrainCount(w, h, max) <= 0 then 0 else DrainCount(w, h, max)) + [DrainEnd]
  }

  lemma {:induction false} DrainCopyOnce(w: nat, s: State)
    requires RingsOk(w, s.hw) && s.hw.cqDepth > 0 && s.dra.DCopy? && |s.dra.got| < s.dra.count
    ensures Step(w, s, DrainCopy) == s.(dra := DCopy(s.dra.count, s.dra.got + [EntryAt(w, s.hw, |s.dra.got|)]))
  {
    SlotInRange(w, s.hw.cqDepth, Advance(w, s.hw.cqHead, |s.dra.got|));
  }

  lemma {:induction false} EntriesSnoc(w: nat, h: Hw, k: nat)
    requires RingsOk(w, h) && h.cqDepth > 0
    ensures Entries(w, h, k + 1) == Entries(w, h, k) + [EntryAt(w, h, k)]
  {
  }

  lemma {:induction false} DrainCopies(w: nat, s: State, k: nat)
    requires RingsOk(w, s.hw) && s.hw.cqDepth > 0
    requires s.dra.DCopy? && s.dra.got == [] && k <= s.dra.count
    ensures Run(w, s, Times(DrainCopy, k)) == s.(dra := DCopy(s.dra.count, Entries(w, s.hw, k)))
  {
    if k == 0 {
    } else {
      DrainCopies(w, s, k - 1);
      RunSnoc(w, s, Times(DrainCopy, k - 1), DrainCopy);
      var m := s.(dra := DCopy(s.dra.count, Entries(w, s.hw, k - 1)));
      DrainCopyOnce(w, m);
      EntriesSnoc(w, s.hw, k - 1);
    }
  }

  lemma {:induction false} DrainRunEmpty(w: nat, s: State, max: nat)
    requires RingsOk(w, s.hw) && s.hw.cqDepth > 0 && s.dra.DIdle? && DrainCount(w, s.hw, max) <= 0
    ensures Run(w, s, DrainEvents(w, s.hw, max)) == s
  {
    RunTwo(w, s, DrainBegin(max), DrainEnd);
    assert DrainEvents(w, s.hw, max) == [DrainBegin(max), DrainEnd];
    assert Step(w, s, DrainBegin(max)) == s;
  }

  lemma {:induction false} DrainStart(w: nat, s: State, max: nat)
    requires s.dra.DIdle? && DrainCount(w, s.hw, max) > 0
    ensures Run(w, s, [DrainBegin(max)]) == s.(dra := DCopy(DrainCount(w, s.hw, max), []))
  {
    RunOne(w, s, DrainBegin(max));
  }

  lemma {:induction false} DrainFinish(w: nat, s: State, n: nat, got: seq<Cqe>)
    requires s.dra.DIdle? && |got| == n
    ensures Step(w, s.(dra := DCopy(n, got)), DrainEnd)
         == s.(hw := s.hw.(cqHead := Advance(w, s.hw.cqHead, n)), drained := s.drained + got)
  {
  }

  lemma {:induction false} DrainRunSome(w: nat, s: State, max: nat, n: nat)
    requires RingsOk(w, s.hw) && s.hw.cqDepth > 0 && s.dra.DIdle? && n == DrainCount(w, s.hw, max) > 0
    ensures Run(w, s, DrainEvents(w, s.hw, max))
         == s.(hw := s.hw.(cqHead := Advance(w, s.hw.cqHead, n)), drained := s.drained + Entries(w, s.hw, n))
  {
    var begin, copies := [DrainBegin(max)], Times(DrainCopy, n);
    DrainStart(w, s, max);
    DrainCopies(w, s.(dra := DCopy(n, [])), n);
    RunAppend(w, s, begin, copies);
    RunSnoc(w, s, begin + copies, DrainEnd);
    DrainFinish(w, s, n, Entries(w, s.hw, n));
  }

  /** An uninterrupted drain. */
  lemma {:induction false} DrainRun(w: nat, s: State, max: nat)
    requires RingsOk(w, s.hw) && s.hw.cqDepth > 0 && s.dra.DIdle?
    ensures var (h, out) := DrainCall(w, s.hw, max);
            Run(w, s, DrainEvents(w, s.hw, max)) == s.(hw := h, drained := s.drained + out)
  {
    var n := DrainCount(w, s.hw, max);
    if n <= 0 {
      DrainRunEmpty(w, s, max);
      assert s.drained + [] == s.drained;
    } else {
      DrainRunSome(w, s, max, n);
    }
  }
}
