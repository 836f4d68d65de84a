/** The submission and completion rings: the driver's calls of `nic.c` and the device's processing
loop of `dma_engine.c`, interleaved one shared access at a time.

The submitting and the draining side of the driver and the device are three threads. Counters are
free-running; `w` is their word size (2^32 in the code, 0 for counters that never wrap).
*/
module DmaRings {
  import opened Words
  import opened DmaTransfer

  /** Both rings, the driver's two counters (`sqTail`, `cqHead`), the device's three (`bell` is the
      last doorbell value), and the data the device works on. */
  datatype Hw = Hw(
    sqDepth: nat, cqDepth: nat,
    sq: seq<Sqe>, cq: seq<Cqe>,
    sqTail: int, cqHead: int,
    bell: int, sqHead: int, cqTail: int,
    world: World)

  datatype Submitter = SIdle | SWrite(sqe: Sqe) | SBump(sqe: Sqe)

  datatype Drainer = DIdle | DCopy(count: nat, got: seq<Cqe>)

  /** `Loop` is the head of the processing loop. */
  datatype Device =
    | Off
    | Loop
    | Fetched(sqe: Sqe)
    | Executed(cqe: Cqe)
    | Posted(cqe: Cqe)
    | Bumped(cqe: Cqe)

  /** With the logs of what was submitted, how each transfer went, what the device completed and
      what the client got back from drains. */
  datatype State = State(
    hw: Hw,
    sub: Submitter,
    dra: Drainer,
    dev: Device,
    submitted: seq<Sqe>,
    outs: seq<Outcome>,
    completed: seq<Cqe>,
    drained: seq<Cqe>)

  datatype Event =
    | SubmitBegin(sqe: Sqe) | SubmitWrite | SubmitBump | Doorbell
    | DrainBegin(max: nat) | DrainCopy | DrainEnd
    | DevStart | DevFetch | DevExecute(o: Outcome) | DevPost | DevBumpSq | DevBumpCq

  function Init(hw: Hw): State {
    State(hw, SIdle, DIdle, Off, [], [], [], [])
  }

  /** Freshly created rings: all counters zero. */
  ghost predicate Fresh(hw: Hw) {
    && |hw.sq| == hw.sqDepth && |hw.cq| == hw.cqDepth && |hw.world.buf| == DEV_BUF_SIZE
    && hw.sqTail == hw.cqHead == hw.bell == hw.sqHead == hw.cqTail == 0
  }

  // ---- the steps ----

  function Step(w: nat, s: State, e: Event): State {
    match e
    case SubmitBegin(_) => StepSubmit(w, s, e)
    case SubmitWrite => StepSubmit(w, s, e)
    case SubmitBump => StepSubmit(w, s, e)
    case Doorbell => s.(hw := s.hw.(bell := s.hw.sqTail))
    case DrainBegin(_) => StepDrain(w, s, e)
    case DrainCopy => StepDrain(w, s, e)
    case DrainEnd => StepDrain(w, s, e)
    case _ => StepDevice(w, s, e)
  }

  function StepSubmit(w: nat, s: State, e: Event): State {
    var h := s.hw;
    match (s.sub, e)
    case (SIdle, SubmitBegin(sqe)) =>
      if Distance(w, h.sqTail, h.sqHead) >= h.sqDepth then s else s.(sub := SWrite(sqe))
    case (SWrite(sqe), SubmitWrite) =>
      var j := Slot(w, h.sqDepth, h.sqTail);
      if 0 <= j < |h.sq| then s.(hw := h.(sq := h.sq[j := sqe]), sub := SBump(sqe)) else s
    case (SBump(sqe), SubmitBump) =>
      s.(hw := h.(sqTail := Advance(w, h.sqTail, 1)), sub := SIdle, submitted := s.submitted + [sqe])
    case _ => s
  }

  function StepDrain(w: nat, s: State, e: Event): State {
    var h := s.hw;
    match (s.dra, e)
    case (DIdle, DrainBegin(max)) =>
      var n := Min(Distance(w, h.cqTail, h.cqHead), max % TWO32);
      if n <= 0 then s else s.(dra := DCopy(n, []))
    case (DCopy(count, got), DrainCopy) =>
      var j := Slot(w, h.cqDepth, Advance(w, h.cqHead, |got|));
      if |got| < count && 0 <= j < |h.cq| then s.(dra := DCopy(count, got + [h.cq[j]])) else s
    case (DCopy(count, got), DrainEnd) =>
      if |got| < count then s else
      s.(hw := h.(cqHead := Advance(w, h.cqHead, count)), dra := DIdle, drained := s.drained + got)
    case _ => s
  }

  function StepDevice(w: nat, s: State, e: Event): State {
    var h := s.hw;
    match (s.dev, e)
    case (Off, DevStart) => s.(dev := Loop)
    case (Loop, DevFetch) =>
      if h.sqHead == h.bell || Distance(w, h.cqTail, h.sqHead) >= h.cqDepth then s.(dev := Off) else
      var j := Slot(w, h.sqDepth, h.sqHead);
      if 0 <= j < |h.sq| then s.(dev := Fetched(h.sq[j])) else s
    case (Fetched(sqe), DevExecute(o)) =>
      if |h.world.buf| != DEV_BUF_SIZE then s else
      s.(hw := h.(world := Transfer(h.world, sqe, o)), dev := Executed(Completion(sqe, o)), outs := s.outs + [o])
    case (Executed(cqe), DevPost) =>
      var j := Slot(w, h.cqDepth, h.cqTail);
      if 0 <= j < |h.cq| then s.(hw := h.(cq := h.cq[j := cqe]), dev := Posted(cqe)) else s
    case (Posted(cqe), DevBumpSq) => s.(hw := h.(sqHead := Advance(w, h.sqHead, 1)), dev := Bumped(cqe))
    case (Bumped(cqe), DevBumpCq) =>
      s.(hw := h.(cqTail := Advance(w, h.cqTail, 1)), dev := Loop, completed := s.completed + [cqe])
    case _ => s
  }

  function Run(w: nat, s: State, es: seq<Event>): State
    decreases |es|
  {
    if es == [] then s else Step(w, Run(w, s, es[..|es| - 1]), es[|es| - 1])
  }

  // ---- what every step keeps, whatever the client does ----

  ghost predicate Inv(w0: World, s: State) {
    && Counters(s)
    && SubmitterInv(s)
    && DeviceInv(s)
    && (forall i :: s.hw.sqHead <= i < s.hw.sqTail ==> SqAt(s.hw, i) == s.submitted[i])
    && (forall i :: Oldest(s) <= i < s.hw.cqTail ==> CqAt(s.hw, i) == s.completed[i])
    && Executes(w0, s)
  }

  /** Two counters in lockstep: the device completes what it consumes, one for one. */
  ghost predicate Counters(s: State) {
    var h := s.hw;
    && |h.sq| == h.sqDepth && |h.cq| == h.cqDepth && |h.world.buf| == DEV_BUF_SIZE
    && 0 <= h.cqHead <= h.cqTail <= h.sqHead <= h.bell <= h.sqTail <= h.sqHead + h.sqDepth
    && h.sqHead == h.cqTail + (if s.dev.Bumped? then 1 else 0)
    && |s.submitted| == h.sqTail && |s.completed| == h.cqTail && |s.drained| == h.cqHead
    && |s.outs| == h.cqTail + (if InFlight(s.dev) then 1 else 0)
    && (s.dra.DCopy? ==> |s.dra.got| <= s.dra.count && h.cqHead + s.dra.count <= h.cqTail)
  }

  /** The transfer is done, its completion not yet counted. */
  predicate InFlight(d: Device) {
    d.Executed? || d.Posted? || d.Bumped?
  }

  /** The first completion still in the ring: `cqDepth` back from the last one written. */
  function Oldest(s: State): int {
    var o := s.hw.cqTail + (if s.dev.Posted? || s.dev.Bumped? then 1 else 0) - s.hw.cqDepth;
    if o < 0 then 0 else o
  }

  function SqAt(h: Hw, i: int): Sqe
    requires |h.sq| == h.sqDepth > 0
  {
    h.sq[i % h.sqDepth]
  }

  function CqAt(h: Hw, i: int): Cqe
    requires |h.cq| == h.cqDepth > 0
  {
    h.cq[i % h.cqDepth]
  }

  ghost predicate SubmitterInv(s: State)
    requires Counters(s)
  {
    match s.sub
    case SIdle => true
    case SWrite(_) => s.hw.sqTail < s.hw.sqHead + s.hw.sqDepth
    case SBump(sqe) => s.hw.sqTail < s.hw.sqHead + s.hw.sqDepth && SqAt(s.hw, s.hw.sqTail) == sqe
  }

  ghost predicate DeviceInv(s: State)
    requires Counters(s)
  {
    match s.dev
    case Off => true
    case Loop => true
    case Fetched(sqe) => s.hw.cqDepth > 0 && s.hw.sqHead < s.hw.bell && sqe == s.submitted[s.hw.sqHead]
    case Executed(_) => s.hw.cqDepth > 0 && s.hw.sqHead < s.hw.bell
    case Posted(cqe) => s.hw.cqDepth > 0 && s.hw.sqHead < s.hw.bell && CqAt(s.hw, s.hw.cqTail) == cqe
    case Bumped(cqe) => s.hw.cqDepth > 0 && CqAt(s.hw, s.hw.cqTail) == cqe
  }

  /** The device has done exactly the first `|outs|` submissions, in order. */
  ghost predicate Executes(w0: World, s: State)
    requires Counters(s)
  {
    && |w0.buf| == DEV_BUF_SIZE
    && |s.outs| <= |s.submitted|
    && s.hw.world == WorldAfter(w0, s.submitted[..|s.outs|], s.outs)
    && Completions(s.submitted[..|s.outs|], s.outs) == s.completed + Pending(s.dev)
  }

  function Pending(d: Device): seq<Cqe> {
    if InFlight(d) then [d.cqe] else []
  }

  lemma {:induction false} InitInv(hw: Hw)
    requires Fresh(hw)
    ensures Inv(hw.world, Init(hw))
  {
  }

  lemma {:induction false} SubmitWriteInv(w0: World, s: State)
    requires Inv(w0, s)
    ensures Inv(w0, Step(0, s, SubmitWrite))
  {
    if s.sub.SWrite? {
      var h, s' := s.hw, Step(0, s, SubmitWrite);
      forall i | h.sqHead <= i < h.sqTail ensures SqAt(s'.hw, i) == s.submitted[i] {
        SlotsDistinct(i, h.sqTail, h.sqDepth);
        assert SqAt(h, i) == s.submitted[i];
      }
      assert forall i :: Oldest(s) <= i < h.cqTail ==> CqAt(s'.hw, i) == CqAt(h, i);
    }
  }

  lemma {:induction false} SubmitBumpInv(w0: World, s: State)
    requires Inv(w0, s)
    ensures Inv(w0, Step(0, s, SubmitBump))
  {
    if s.sub.SBump? {
      var h, s' := s.hw, Step(0, s, SubmitBump);
      assert s'.submitted[..|s.outs|] == s.submitted[..|s.outs|];
      forall i | h.sqHead <= i < s'.hw.sqTail ensures SqAt(s'.hw, i) == s'.submitted[i] {
        assert SqAt(s'.hw, i) == SqAt(h, i);
        assert i < h.sqTail ==> SqAt(h, i) == s.submitted[i];
      }
      assert forall i :: Oldest(s) <= i < h.cqTail ==> CqAt(s'.hw, i) == CqAt(h, i);
    }
  }

  /** The rings' contents and the logs of the device's work do not change. */
  ghost predicate SameRings(s: State, s': State) {
    && s'.hw.sq == s.hw.sq && s'.hw.cq == s.hw.cq && s'.hw.world == s.hw.world
    && s'.hw.sqDepth == s.hw.sqDepth && s'.hw.cqDepth == s.hw.cqDepth
    && s'.hw.sqTail == s.hw.sqTail && s'.hw.sqHead == s.hw.sqHead && s'.hw.cqTail == s.hw.cqTail
    && s'.submitted == s.submitted && s'.outs == s.outs && s'.completed == s.completed
    && s'.dev == s.dev
  }

  lemma {:induction false} SameRingsInv(w0: World, s: State, s': State)
    requires Inv(w0, s) && SameRings(s, s')
    requires Counters(s') && SubmitterInv(s') && DeviceInv(s')
    ensures Inv(w0, s')
  {
    assert forall i :: s.hw.sqHead <= i < s.hw.sqTail ==> SqAt(s'.hw, i) == SqAt(s.hw, i);
    assert forall i :: Oldest(s) <= i < s.hw.cqTail ==> CqAt(s'.hw, i) == CqAt(s.hw, i);
  }

  lemma {:induction false} SubmitBeginInv(w0: World, s: State, e: Event)
    requires Inv(w0, s) && (e.SubmitBegin? || e.Doorbell?)
    ensures Inv(w0, Step(0, s, e))
  {
    SameRingsInv(w0, s, Step(0, s, e));
  }

  lemma {:induction false} DrainCounters(s: State, e: Event)
    requires Counters(s) && (e.DrainBegin? || e.DrainCopy? || e.DrainEnd?)
    ensures var s' := Step(0, s, e);
            && Counters(s') && s'.sub == s.sub && s'.dev == s.dev
            && s'.hw == s.hw.(cqHead := s'.hw.cqHead)
            && s'.submitted == s.submitted && s'.outs == s.outs && s'.completed == s.completed
  {
  }

  lemma {:induction false} DrainInv(w0: World, s: State, e: Event)
    requires Inv(w0, s) && (e.DrainBegin? || e.DrainCopy? || e.DrainEnd?)
    ensures Inv(w0, Step(0, s, e))
  {
    DrainCounters(s, e);
    SameRingsInv(w0, s, Step(0, s, e));
  }

  lemma {:induction false} FetchInv(w0: World, s: State)
    requires Inv(w0, s)
    ensures Inv(w0, Step(0, s, DevFetch))
  {
    if s.dev.Loop? && s.hw.sqHead < s.hw.bell {
      assert SqAt(s.hw, s.hw.sqHead) == s.submitted[s.hw.sqHead];
    }
  }

  lemma {:induction false} CompletionsSnoc(sqes: seq<Sqe>, outs: seq<Outcome>, sqe: Sqe, o: Outcome)
    requires |sqes| == |outs|
    ensures Completions(sqes + [sqe], outs + [o]) == Completions(sqes, outs) + [Completion(sqe, o)]
  {
  }

  lemma {:induction false} ExecuteCounters(s: State, o: Outcome)
    requires Counters(s) && s.dev.Fetched?
    ensures var s' := Step(0, s, DevExecute(o));
            && Counters(s') && s'.submitted == s.submitted && s'.outs == s.outs + [o]
            && s'.completed + Pending(s'.dev) == s.completed + [Completion(s.dev.sqe, o)]
            && s'.hw.world == Transfer(s.hw.world, s.dev.sqe, o)
  {
  }

  lemma {:induction false} ExecutesMore(w0: World, s: State, o: Outcome)
    requires Counters(s) && Executes(w0, s) && s.dev.Fetched?
    requires |s.outs| < |s.submitted| && s.dev.sqe == s.submitted[|s.outs|]
    ensures Counters(Step(0, s, DevExecute(o))) && Executes(w0, Step(0, s, DevExecute(o)))
  {
    var k := |s.outs|;
    ExecuteCounters(s, o);
    assert s.submitted[..k + 1] == s.submitted[..k] + [s.dev.sqe];
    assert s.completed + Pending(s.dev) == s.completed;
    WorldSnoc(w0, s.submitted[..k], s.outs, s.dev.sqe, o);
    CompletionsSnoc(s.submitted[..k], s.outs, s.dev.sqe, o);
  }

  lemma {:induction false} ExecuteInv(w0: World, s: State, o: Outcome)
    requires Inv(w0, s)
    ensures Inv(w0, Step(0, s, DevExecute(o)))
  {
    if s.dev.Fetched? {
      ExecutesMore(w0, s, o);
      var s' := Step(0, s, DevExecute(o));
      assert forall i :: s.hw.sqHead <= i < s.hw.sqTail ==> SqAt(s'.hw, i) == SqAt(s.hw, i);
      assert forall i :: Oldest(s) <= i < s.hw.cqTail ==> CqAt(s'.hw, i) == CqAt(s.hw, i);
    }
  }

  lemma {:induction false} PostInv(w0: World, s: State)
    requires Inv(w0, s)
    ensures Inv(w0, Step(0, s, DevPost))
  {
    if s.dev.Executed? {
      var h, s' := s.hw, Step(0, s, DevPost);
      forall i | Oldest(s') <= i < h.cqTail ensures CqAt(s'.hw, i) == s.completed[i] {
        SlotsDistinct(i, h.cqTail, h.cqDepth);
        assert CqAt(h, i) == s.completed[i];
      }
      assert forall i :: h.sqHead <= i < h.sqTail ==> SqAt(s'.hw, i) == SqAt(h, i);
    }
  }

  lemma {:induction false} BumpSqInv(w0: World, s: State)
    requires Inv(w0, s)
    ensures Inv(w0, Step(0, s, DevBumpSq))
  {
    if s.dev.Posted? {
      var s' := Step(0, s, DevBumpSq);
      forall i | s'.hw.sqHead <= i < s'.hw.sqTail ensures SqAt(s'.hw, i) == s.submitted[i] {
        assert SqAt(s'.hw, i) == SqAt(s.hw, i);
      }
      forall i | Oldest(s') <= i < s'.hw.cqTail ensures CqAt(s'.hw, i) == s.completed[i] {
        assert CqAt(s'.hw, i) == CqAt(s.hw, i);
      }
    }
  }

  lemma {:induction false} BumpCqInv(w0: World, s: State)
    requires Inv(w0, s)
    ensures Inv(w0, Step(0, s, DevBumpCq))
  {
    if s.dev.Bumped? {
      var s' := Step(0, s, DevBumpCq);
      forall i | s'.hw.sqHead <= i < s'.hw.sqTail ensures SqAt(s'.hw, i) == s.submitted[i] {
        assert SqAt(s'.hw, i) == SqAt(s.hw, i);
      }
      forall i | Oldest(s') <= i < s'.hw.cqTail ensures CqAt(s'.hw, i) == s'.completed[i] {
        assert CqAt(s'.hw, i) == CqAt(s.hw, i);
        assert i < s.hw.cqTail ==> CqAt(s.hw, i) == s.completed[i];
      }
    }
  }

  /** Every step of driver and device keeps the invariant, disciplined client or not. */
  lemma {:induction false} StepInv(w0: World, s: State, e: Event)
    requires Inv(w0, s)
    ensures Inv(w0, Step(0, s, e))
  {
    match e
    case SubmitWrite => SubmitWriteInv(w0, s);
    case SubmitBump => SubmitBumpInv(w0, s);
    case DevStart =>
    case DevFetch => FetchInv(w0, s);
    case DevExecute(o) => ExecuteInv(w0, s, o);
    case DevPost => PostInv(w0, s);
    case DevBumpSq => BumpSqInv(w0, s);
    case DevBumpCq => BumpCqInv(w0, s);
    case SubmitBegin(_) => SubmitBeginInv(w0, s, e);
    case Doorbell => SubmitBeginInv(w0, s, e);
    case _ => DrainInv(w0, s, e);
  }

  lemma {:induction false} RunInv(w0: World, s: State, es: seq<Event>)
    requires Inv(w0, s)
    ensures Inv(w0, Run(0, s, es))
    decreases |es|
  {
    if es == [] {
    } else {
      RunInv(w0, s, es[..|es| - 1]);
      StepInv(w0, Run(0, s, es[..|es| - 1]), es[|es| - 1]);
    }
  }

  // ---- what a client that waits for room in the completion ring gets ----

  /** A submission in the middle of its call counts as made. */
  function Outstanding(s: State): int {
    s.hw.sqTail + (if s.sub.SIdle? then 0 else 1) - s.hw.cqHead
  }

  /** No completion the client has not drained is out of the ring, and drains have returned the
      completions in order. */
  ghost predicate Delivers(s: State)
    requires Counters(s)
  {
    && Outstanding(s) <= s.hw.cqDepth
    && s.drained == s.completed[..s.hw.cqHead]
    && (s.dra.DCopy? ==> s.dra.got == s.completed[s.hw.cqHead..s.hw.cqHead + |s.dra.got|])
  }

  /** The event begins a submission that the driver does not refuse for want of a slot. */
  predicate BeginsSubmission(w: nat, s: State, e: Event) {
    e.SubmitBegin? && s.sub.SIdle? && Distance(w, s.hw.sqTail, s.hw.sqHead) < s.hw.sqDepth
  }

  /** The client's discipline: have a submission accepted only while fewer than `cqDepth` are
      undrained. A refused one costs nothing. */
  predicate Allowed(w: nat, s: State, e: Event) {
    BeginsSubmission(w, s, e) ==> Distance(w, s.hw.sqTail, s.hw.cqHead) < s.hw.cqDepth
  }

  lemma {:induction false} SubmitDelivers(s: State, e: Event)
    requires Counters(s) && Counters(Step(0, s, e)) && Delivers(s) && Allowed(0, s, e)
    requires e.SubmitBegin? || e.SubmitWrite? || e.SubmitBump? || e.Doorbell?
    ensures Delivers(Step(0, s, e))
  {
  }

  lemma {:induction false} DeviceFrame(s: State, e: Event)
    ensures var s' := StepDevice(0, s, e);
            && s'.sub == s.sub && s'.dra == s.dra && s'.drained == s.drained && s.completed <= s'.completed
            && s'.hw.sqTail == s.hw.sqTail && s'.hw.cqHead == s.hw.cqHead && s'.hw.cqDepth == s.hw.cqDepth
  {
  }

  lemma {:induction false} DeviceDelivers(s: State, e: Event)
    requires Counters(s) && Counters(StepDevice(0, s, e)) && Delivers(s)
    ensures Delivers(StepDevice(0, s, e))
  {
    var s', h := StepDevice(0, s, e), s.hw.cqHead;
    DeviceFrame(s, e);
    assert s'.completed[..h] == s.completed[..h];
    if s.dra.DCopy? {
      assert s'.completed[h..h + |s.dra.got|] == s.completed[h..h + |s.dra.got|];
    }
  }

  lemma {:induction false} DrainCopyDelivers(w0: World, s: State)
    requires Inv(w0, s) && Delivers(s)
    ensures Counters(Step(0, s, DrainCopy)) && Delivers(Step(0, s, DrainCopy))
  {
    if s.dra.DCopy? && |s.dra.got| < s.dra.count {
      var i := s.hw.cqHead + |s.dra.got|;
      assert Oldest(s) <= i < s.hw.cqTail;
      assert CqAt(s.hw, i) == s.completed[i];
    }
  }

  lemma {:induction false} DrainDelivers(s: State, e: Event)
    requires Counters(s) && Counters(Step(0, s, e)) && Delivers(s) && (e.DrainBegin? || e.DrainEnd?)
    ensures Delivers(Step(0, s, e))
  {
    var s' := Step(0, s, e);
    if s'.drained != s.drained {
      assert s.completed[..s'.hw.cqHead] == s.completed[..s.hw.cqHead] + s.dra.got;
    }
  }

  lemma {:induction false} StepDelivers(w0: World, s: State, e: Event)
    requires Inv(w0, s) && Delivers(s) && Allowed(0, s, e)
    ensures Inv(w0, Step(0, s, e)) && Delivers(Step(0, s, e))
  {
    StepInv(w0, s, e);
    match e
    case SubmitBegin(_) => SubmitDelivers(s, e);
    case SubmitWrite => SubmitDelivers(s, e);
    case SubmitBump => SubmitDelivers(s, e);
    case Doorbell => SubmitDelivers(s, e);
    case DrainBegin(_) => DrainDelivers(s, e);
    case DrainCopy => DrainCopyDelivers(w0, s);
    case DrainEnd => DrainDelivers(s, e);
    case _ => DeviceDelivers(s, e);
  }
}

