/** The single-producer / single-consumer ring with its two threads interleaved.

One event is one access to a variable the other thread can see, or one element copied. An event
that its thread is not ready for leaves the state alone, so a run is any list of events. The
acquire loads of the peer's counter may be stale: they return any value between the last one
this side saw and the current one.
*/
module SpscMachine {
  import opened Words
  import opened Runs
  import opened SpscRing

  /** `PRefresh` is about to reload `tail`; `PCopy` has `done` of its `items` in the buffer. */
  datatype Producer<T> = PIdle | PRefresh(want: seq<T>, batch: bool) | PCopy(items: seq<T>, done: nat)

  /** `CRefresh` is about to reload `head`; `CCopy` has copied `got` out of `count` elements. */
  datatype Consumer<T> = CIdle | CRefresh(wanted: nat, many: bool) | CCopy(count: nat, got: seq<T>)

  /** `accepted` is everything pushed so far, `received` everything popped so far. */
  datatype State<T> = State(
    ring: Ring<T>,
    prod: Producer<T>,
    cons: Consumer<T>,
    accepted: seq<T>,
    received: seq<T>)

  datatype Event<T> =
    | BeginPush(x: T) | BeginPushN(xs: seq<T>) | LoadTail(lag: nat) | CopyIn | StoreHead
    | BeginPop | BeginPopN(n: nat) | LoadHead(lag: nat) | CopyOut | StoreTail

  function Init<T>(capacity: nat, buf: seq<T>): State<T> {
    State(Ring(capacity, buf, 0, 0, 0, 0), PIdle, CIdle, [], [])
  }

  predicate FromProducer<T>(e: Event<T>) {
    e.BeginPush? || e.BeginPushN? || e.LoadTail? || e.CopyIn? || e.StoreHead?
  }

  function Step<T>(w: nat, s: State<T>, e: Event<T>): State<T> {
    if FromProducer(e) then StepProducer(w, s, e) else StepConsumer(w, s, e)
  }

  function StepProducer<T>(w: nat, s: State<T>, e: Event<T>): State<T> {
    var r := s.ring;
    match (s.prod, e)
    case (PIdle, BeginPush(x)) =>
      s.(prod := if Distance(w, r.head, r.cachedTail) >= r.capacity then PRefresh([x], false)
                 else PCopy([x], 0))
    case (PIdle, BeginPushN(xs)) =>
      s.(prod := if Free(w, r) < |xs| then PRefresh(xs, true)
                 else if xs == [] then PIdle else PCopy(xs, 0))
    case (PRefresh(want, batch), LoadTail(lag)) =>
      if lag > Distance(w, r.tail, r.cachedTail) then s else
      var r1 := r.(cachedTail := Advance(w, r.tail, -(lag as int)));
      var n := if batch then Min(|want|, Free(w, r1))
               else if Distance(w, r1.head, r1.cachedTail) >= r.capacity then 0 else |want|;
      s.(ring := r1, prod := if n <= 0 then PIdle else PCopy(want[..n], 0))
    case (PCopy(items, done), CopyIn) =>
      var j := Slot(w, r.capacity, Advance(w, r.head, done));
      if done < |items| && 0 <= j < |r.buf| then
        s.(ring := r.(buf := r.buf[j := items[done]]), prod := PCopy(items, done + 1))
      else s
    case (PCopy(items, done), StoreHead) =>
      if done < |items| then s else
      s.(ring := r.(head := Advance(w, r.head, |items|)), prod := PIdle,
         accepted := s.accepted + items)
    case _ => s
  }

  function StepConsumer<T>(w: nat, s: State<T>, e: Event<T>): State<T> {
    var r := s.ring;
    match (s.cons, e)
    case (CIdle, BeginPop) =>
      s.(cons := if r.tail == r.cachedHead then CRefresh(1, false) else CCopy(1, []))
    case (CIdle, BeginPopN(n)) =>
      s.(cons := if Avail(w, r) < n then CRefresh(n, true)
                 else if n == 0 then CIdle else CCopy(n, []))
    case (CRefresh(wanted, many), LoadHead(lag)) =>
      if lag > Distance(w, r.head, r.cachedHead) then s else
      var r1 := r.(cachedHead := Advance(w, r.head, -(lag as int)));
      var n := if many then Min(wanted, Avail(w, r1))
               else if r1.tail == r1.cachedHead then 0 else wanted;
      s.(ring := r1, cons := if n <= 0 then CIdle else CCopy(n, []))
    case (CCopy(count, got), CopyOut) =>
      var j := Slot(w, r.capacity, Advance(w, r.tail, |got|));
      if |got| < count && 0 <= j < |r.buf| then s.(cons := CCopy(count, got + [r.buf[j]])) else s
    case (CCopy(count, got), StoreTail) =>
      if |got| < count then s else
      s.(ring := r.(tail := Advance(w, r.tail, count)), cons := CIdle,
         received := s.received + got)
    case _ => s
  }

  function Run<T>(w: nat, s: State<T>, es: seq<Event<T>>): State<T>
    decreases |es|
  {
    if es == [] then s else Step(w, Run(w, s, es[..|es| - 1]), es[|es| - 1])
  }

  // ---- what every step keeps, with unbounded counters ----

  ghost predicate Inv<T>(s: State<T>) {
    var r := s.ring;
    && Valid(0, r)
    && r.head == |s.accepted|
    && r.tail <= |s.accepted| && s.received == s.accepted[..r.tail]
    && (forall i :: r.tail <= i < r.head ==> At(0, r, i) == s.accepted[i])
    && ProducerInv(s)
    && ConsumerInv(s)
  }

  /** The copy stays inside the free slots, and what is done of it is in place. */
  ghost predicate ProducerInv<T>(s: State<T>)
    requires Valid(0, s.ring)
  {
    match s.prod
    case PIdle => true
    case PRefresh(want, batch) => want != [] && (!batch ==> |want| == 1)
    case PCopy(items, done) =>
      && done <= |items| && items != []
      && s.ring.head + |items| <= s.ring.cachedTail + s.ring.capacity
      && forall k :: 0 <= k < done ==> At(0, s.ring, s.ring.head + k) == items[k]
  }

  ghost predicate ConsumerInv<T>(s: State<T>) {
    match s.cons
    case CIdle => true
    case CRefresh(wanted, many) => wanted > 0 && (!many ==> wanted == 1)
    case CCopy(count, got) =>
      && |got| <= count && count > 0
      && 0 <= s.ring.tail && s.ring.tail + count <= s.ring.cachedHead <= |s.accepted|
      && got == s.accepted[s.ring.tail..s.ring.tail + |got|]
  }

  lemma {:induction false} InitInv<T>(capacity: nat, buf: seq<T>)
    requires IsPow2(capacity) && 0 < capacity < TWO64 && |buf| == capacity
    ensures Inv(Init(capacity, buf))
  {
  }

  /** Writing the next item leaves every slot between `tail` and the item alone. */
  lemma {:induction false} CopyInKeeps<T>(s: State<T>, i: int)
    requires Inv(s) && s.prod.PCopy? && s.prod.done < |s.prod.items|
    requires s.ring.tail <= i <= s.ring.head + s.prod.done
    ensures var s' := Step(0, s, CopyIn);
            && Valid(0, s'.ring)
            && At(0, s'.ring, i) == if i == s.ring.head + s.prod.done then s.prod.items[s.prod.done]
                                    else At(0, s.ring, i)
  {
    var at := s.ring.head + s.prod.done;
    if i < at { SlotsDistinct(i, at, s.ring.capacity); }
  }

  lemma {:induction false} CopyInInv<T>(s: State<T>)
    requires Inv(s)
    ensures Inv(Step(0, s, CopyIn))
  {
    if s.prod.PCopy? && s.prod.done < |s.prod.items| {
      var s' := Step(0, s, CopyIn);
      CopyInKeeps(s, s.ring.head + s.prod.done);
      forall i | s.ring.tail <= i < s.ring.head ensures At(0, s'.ring, i) == s.accepted[i] {
        CopyInKeeps(s, i);
      }
      forall k | 0 <= k < s'.prod.done ensures At(0, s'.ring, s.ring.head + k) == s.prod.items[k] {
        CopyInKeeps(s, s.ring.head + k);
      }
    }
  }

  lemma {:induction false} StoreHeadInv<T>(s: State<T>)
    requires Inv(s)
    ensures Inv(Step(0, s, StoreHead))
  {
    if s.prod.PCopy? && s.prod.done == |s.prod.items| {
      var s' := Step(0, s, StoreHead);
      forall i | s'.ring.tail <= i < s'.ring.head ensures At(0, s'.ring, i) == s'.accepted[i] {
        if s.ring.head <= i {
          assert At(0, s.ring, s.ring.head + (i - s.ring.head)) == s.prod.items[i - s.ring.head];
        } else {
          assert At(0, s.ring, i) == s.accepted[i];
        }
      }
    }
  }

  lemma {:induction false} SameSlots<T>(r: Ring<T>, r': Ring<T>)
    requires Valid(0, r) && Valid(0, r') && r'.buf == r.buf && r'.capacity == r.capacity
    ensures forall i :: At(0, r', i) == At(0, r, i)
  {
  }

  lemma {:induction false} BeginPushInv<T>(s: State<T>, e: Event<T>)
    requires Inv(s) && (e.BeginPush? || e.BeginPushN?)
    ensures Inv(Step(0, s, e))
  {
  }

  lemma {:induction false} LoadTailInv<T>(s: State<T>, lag: nat)
    requires Inv(s)
    ensures Inv(Step(0, s, LoadTail(lag)))
  {
    SameSlots(s.ring, Step(0, s, LoadTail(lag)).ring);
  }

  /** The consumer moves without touching the ring. */
  lemma {:induction false} ConsumerMoveInv<T>(s: State<T>, cons: Consumer<T>)
    requires Inv(s) && ConsumerInv(s.(cons := cons))
    ensures Inv(s.(cons := cons))
  {
  }

  lemma {:induction false} BeginPopInv<T>(s: State<T>, e: Event<T>)
    requires Inv(s) && (e.BeginPop? || e.BeginPopN?)
    ensures Inv(Step(0, s, e))
  {
    var cons := Step(0, s, e).cons;
    assert Step(0, s, e) == s.(cons := cons);
    assert ConsumerInv(s.(cons := cons));
    ConsumerMoveInv(s, cons);
  }

  lemma {:induction false} LoadHeadInv<T>(s: State<T>, lag: nat)
    requires Inv(s)
    ensures Inv(Step(0, s, LoadHead(lag)))
  {
    SameSlots(s.ring, Step(0, s, LoadHead(lag)).ring);
  }

  lemma {:induction false} CopyOutInv<T>(s: State<T>)
    requires Inv(s)
    ensures Inv(Step(0, s, CopyOut))
  {
    if s.cons.CCopy? && |s.cons.got| < s.cons.count {
      assert At(0, s.ring, s.ring.tail + |s.cons.got|) == s.accepted[s.ring.tail + |s.cons.got|];
    }
  }

  lemma {:induction false} StoreTailInv<T>(s: State<T>)
    requires Inv(s)
    ensures Inv(Step(0, s, StoreTail))
  {
    var s' := Step(0, s, StoreTail);
    SameSlots(s.ring, s'.ring);
    if s'.cons != s.cons {
      assert s.accepted[..s'.ring.tail] == s.accepted[..s.ring.tail] + s.cons.got;
    }
  }

  /** Every step of either thread keeps the invariant. */
  lemma {:induction false} StepInv<T>(s: State<T>, e: Event<T>)
    requires Inv(s)
    ensures Inv(Step(0, s, e))
  {
    match e
    case BeginPush(_) => BeginPushInv(s, e);
    case BeginPushN(_) => BeginPushInv(s, e);
    case LoadTail(lag) => LoadTailInv(s, lag);
    case CopyIn => CopyInInv(s);
    case StoreHead => StoreHeadInv(s);
    case BeginPop => BeginPopInv(s, e);
    case BeginPopN(_) => BeginPopInv(s, e);
    case LoadHead(lag) => LoadHeadInv(s, lag);
    case CopyOut => CopyOutInv(s);
    case StoreTail => StoreTailInv(s);
  }

  lemma {:induction false} RunInv<T>(s: State<T>, es: seq<Event<T>>)
    requires Inv(s)
    ensures Inv(Run(0, s, es))
    decreases |es|
  {
    if es == [] {
    } else {
      RunInv(s, es[..|es| - 1]);
      StepInv(Run(0, s, es[..|es| - 1]), es[|es| - 1]);
    }
  }

  // ---- wraparound ----

  function WrapState<T>(s: State<T>): State<T> {
    s.(ring := WrapRing(TWO64, s.ring))
  }

  lemma {:induction false} WrapLoadTail<T>(s: State<T>, lag: nat)
    requires Valid(0, s.ring)
    ensures StepProducer(TWO64, WrapState(s), LoadTail(lag)) == WrapState(StepProducer(0, s, LoadTail(lag)))
  {
    var r := s.ring;
    WrapDistance(TWO64, r.tail, r.cachedTail);
    if lag <= r.tail - r.cachedTail {
      WrapAdvance(TWO64, r.tail, -(lag as int));
      WrapRingFacts(r.(cachedTail := r.tail - lag));
    }
  }

  lemma {:induction false} WrapCopyIn<T>(s: State<T>)
    requires Valid(0, s.ring)
    ensures StepProducer(TWO64, WrapState(s), CopyIn) == WrapState(StepProducer(0, s, CopyIn))
  {
    if s.prod.PCopy? {
      var r, k := s.ring, s.prod.done;
      assert Slot(TWO64, r.capacity, Advance(TWO64, Wrap(TWO64, r.head), k)) == Slot(0, r.capacity, r.head + k) by {
        WrapAdvance(TWO64, r.head, k);
        WrapSlot(TWO64, r.capacity, r.head + k);
      }
    }
  }

  lemma {:induction false} WrapStepProducer<T>(s: State<T>, e: Event<T>)
    requires Valid(0, s.ring)
    ensures StepProducer(TWO64, WrapState(s), e) == WrapState(StepProducer(0, s, e))
  {
    match e
    case LoadTail(lag) => WrapLoadTail(s, lag);
    case CopyIn => WrapCopyIn(s);
    case StoreHead => if s.prod.PCopy? { WrapAdvance(TWO64, s.ring.head, |s.prod.items|); }
    case _ => WrapRingFacts(s.ring);
  }

  /** The consumer's view after a reload, in either word size. */
  lemma {:induction false} HeadReloaded<T>(r: Ring<T>, lag: nat)
    requires Valid(0, r) && lag <= r.head - r.cachedHead
    ensures var r1 := r.(cachedHead := r.head - lag);
            var x := WrapRing(TWO64, r).(cachedHead := Advance(TWO64, Wrap(TWO64, r.head), -(lag as int)));
            && x == WrapRing(TWO64, r1) && Avail(TWO64, x) == Avail(0, r1)
            && (x.tail == x.cachedHead <==> r1.tail == r1.cachedHead)
  {
    WrapAdvance(TWO64, r.head, -(lag as int));
    WrapRingFacts(r.(cachedHead := r.head - lag));
    WrapEqual(TWO64, r.head - lag, r.tail);
  }

  lemma {:induction false} WrapLoadHead<T>(s: State<T>, lag: nat)
    requires Valid(0, s.ring)
    ensures StepConsumer(TWO64, WrapState(s), LoadHead(lag)) == WrapState(StepConsumer(0, s, LoadHead(lag)))
  {
    WrapDistance(TWO64, s.ring.head, s.ring.cachedHead);
    if lag <= s.ring.head - s.ring.cachedHead { HeadReloaded(s.ring, lag); }
  }

  lemma {:induction false} WrapCopyOut<T>(s: State<T>)
    requires Valid(0, s.ring)
    ensures StepConsumer(TWO64, WrapState(s), CopyOut) == WrapState(StepConsumer(0, s, CopyOut))
  {
    if s.cons.CCopy? {
      WrapAdvance(TWO64, s.ring.tail, |s.cons.got|);
      WrapSlot(TWO64, s.ring.capacity, s.ring.tail + |s.cons.got|);
    }
  }

  lemma {:induction false} WrapStepConsumer<T>(s: State<T>, e: Event<T>)
    requires Valid(0, s.ring)
    ensures StepConsumer(TWO64, WrapState(s), e) == WrapState(StepConsumer(0, s, e))
  {
    match e
    case LoadHead(lag) => WrapLoadHead(s, lag);
    case CopyOut => WrapCopyOut(s);
    case StoreTail => if s.cons.CCopy? { WrapAdvance(TWO64, s.ring.tail, s.cons.count); }
    case _ =>
      WrapRingFacts(s.ring);
      WrapEqual(TWO64, s.ring.cachedHead, s.ring.tail);
  }

  /** A run of any length with 64-bit counters is the run with unbounded counters, reduced. */
  lemma {:induction false} WrapRun<T>(s: State<T>, es: seq<Event<T>>)
    requires Inv(s)
    ensures Run(TWO64, WrapState(s), es) == WrapState(Run(0, s, es))
    decreases |es|
  {
    if es == [] {
    } else {
      var before := es[..|es| - 1];
      WrapRun(s, before);
      RunInv(s, before);
      WrapStepProducer(Run(0, s, before), es[|es| - 1]);
      WrapStepConsumer(Run(0, s, before), es[|es| - 1]);
    }
  }

  // ---- the theorems, about every run with 64-bit counters ----

  ghost predicate Creatable<T>(capacity: nat, buf: seq<T>) {
    IsPow2(capacity) && 0 < capacity < TWO64 && |buf| == capacity
  }

  /** The state after `es`, and the state it would be with counters that never wrap. */
  lemma {:induction false} Reach<T>(capacity: nat, buf: seq<T>, es: seq<Event<T>>) returns (u: State<T>)
    requires Creatable(capacity, buf)
    ensures u == Run(0, Init(capacity, buf), es) && Inv(u)
    ensures Run(TWO64, Init(capacity, buf), es) == WrapState(u)
    ensures Run(TWO64, Init(capacity, buf), es).ring.capacity == capacity
  {
    u := Run(0, Init(capacity, buf), es);
    InitInv(capacity, buf);
    RunInv(Init(capacity, buf), es);
    assert WrapState(Init(capacity, buf)) == Init(capacity, buf);
    WrapRun(Init(capacity, buf), es);
    RunCapacity(0, Init(capacity, buf), es);
  }

  lemma {:induction false} RunCapacity<T>(w: nat, s: State<T>, es: seq<Event<T>>)
    ensures Run(w, s, es).ring.capacity == s.ring.capacity
    decreases |es|
  {
    if es == [] {
    } else {
      RunCapacity(w, s, es[..|es| - 1]);
    }
  }

  /** Exactly-once FIFO: at every moment the buffer holds exactly what was pushed and not yet
      popped, in order; the elements being copied out are the next ones due. */
  lemma {:induction false} Delivery<T>(capacity: nat, buf: seq<T>, es: seq<Event<T>>)
    requires Creatable(capacity, buf)
    ensures var s := Run(TWO64, Init(capacity, buf), es);
            && Valid(TWO64, s.ring)
            && s.received <= s.accepted
            && Contents(TWO64, s.ring) == s.accepted[|s.received|..]
            && (s.cons.CCopy? ==> s.received + s.cons.got <= s.accepted)
  {
    var u := Reach(capacity, buf, es);
    WrapContents(u.ring);
    var q := u.accepted[|u.received|..];
    forall i | 0 <= i < |q| ensures Contents(0, u.ring)[i] == q[i] {
      assert At(0, u.ring, u.ring.tail + i) == u.accepted[u.ring.tail + i];
    }
  }

  /** The producer, about to reload `tail` with a load `lag` pops behind, transfers exactly what
      fits in the room there was then, and fails exactly when there was none. */
  ghost predicate PushCutToRoom<T>(w: nat, s: State<T>, lag: nat) {
    s.prod.PRefresh? && lag <= Distance(w, s.ring.tail, s.ring.cachedTail) ==>
      var n := Min(|s.prod.want|, s.ring.capacity - (|s.accepted| - |s.received| + lag));
      && 0 <= n
      && Step(w, s, LoadTail(lag)).prod == if n == 0 then PIdle else PCopy(s.prod.want[..n], 0)
  }

  /** The same for the consumer, `lag` pushes behind. */
  ghost predicate PopCutToAvailable<T>(w: nat, s: State<T>, lag: nat) {
    s.cons.CRefresh? && lag <= Distance(w, s.ring.head, s.ring.cachedHead) ==>
      var n := Min(s.cons.wanted, |s.accepted| - |s.received| - lag);
      && 0 <= n
      && Step(w, s, LoadHead(lag)).cons == if n == 0 then CIdle else CCopy(n, [])
  }

  lemma {:induction false} PushCutIdeal<T>(u: State<T>, lag: nat)
    requires Inv(u)
    ensures PushCutToRoom(0, u, lag)
  {
  }

  lemma {:induction false} PopCutIdeal<T>(u: State<T>, lag: nat)
    requires Inv(u)
    ensures PopCutToAvailable(0, u, lag)
  {
  }

  lemma {:induction false} PushCutWraps<T>(u: State<T>, lag: nat)
    requires Valid(0, u.ring) && PushCutToRoom(0, u, lag)
    ensures PushCutToRoom(TWO64, WrapState(u), lag)
  {
    WrapLoadTail(u, lag);
    WrapDistance(TWO64, u.ring.tail, u.ring.cachedTail);
  }

  lemma {:induction false} PopCutWraps<T>(u: State<T>, lag: nat)
    requires Valid(0, u.ring) && PopCutToAvailable(0, u, lag)
    ensures PopCutToAvailable(TWO64, WrapState(u), lag)
  {
    WrapLoadHead(u, lag);
    WrapDistance(TWO64, u.ring.head, u.ring.cachedHead);
  }

  /** In every run, a short transfer is exactly the room, or the elements, that the reload saw. */
  lemma {:induction false} ShortTransfers<T>(capacity: nat, buf: seq<T>, es: seq<Event<T>>, lag: nat)
    requires Creatable(capacity, buf)
    ensures var s := Run(TWO64, Init(capacity, buf), es);
            PushCutToRoom(TWO64, s, lag) && PopCutToAvailable(TWO64, s, lag)
  {
    var u := Reach(capacity, buf, es);
    PushCutIdeal(u, lag);
    PopCutIdeal(u, lag);
    PushCutWraps(u, lag);
    PopCutWraps(u, lag);
  }

  // ---- size ----

  ghost predicate OnlyProducer<T>(es: seq<Event<T>>) {
    forall e :: e in es ==> FromProducer(e)
  }

  ghost predicate OnlyConsumer<T>(es: seq<Event<T>>) {
    forall e :: e in es ==> !FromProducer(e)
  }

  lemma {:induction false} StepMonotone<T>(s: State<T>, e: Event<T>)
    requires Inv(s)
    ensures var t := Step(0, s, e);
            && s.ring.head <= t.ring.head && s.ring.tail <= t.ring.tail
            && s.received <= t.received && s.accepted <= t.accepted
            && (if FromProducer(e) then t.ring.tail == s.ring.tail else t.ring.head == s.ring.head)
  {
  }

  lemma {:induction false} RunMonotone<T>(s: State<T>, es: seq<Event<T>>)
    requires Inv(s)
    ensures var t := Run(0, s, es);
            && s.ring.head <= t.ring.head && s.ring.tail <= t.ring.tail
            && s.received <= t.received && s.accepted <= t.accepted
            && (OnlyProducer(es) ==> t.ring.tail == s.ring.tail)
            && (OnlyConsumer(es) ==> t.ring.head == s.ring.head)
    decreases |es|
  {
    if es == [] {
    } else {
      var before, last := es[..|es| - 1], es[|es| - 1];
      assert es == before + [last];
      RunMonotone(s, before);
      RunInv(s, before);
      StepMonotone(Run(0, s, before), last);
    }
  }

  lemma {:induction false} RunSnoc<T>(w: nat, s: State<T>, es: seq<Event<T>>, e: Event<T>)
    ensures Run(w, s, es + [e]) == Step(w, Run(w, s, es), e)
  {
    assert (es + [e])[..|es|] == es;
  }

  function StepOf<T>(w: nat): (State<T>, Event<T>) -> State<T> {
    (s: State<T>, e: Event<T>) => Step(w, s, e)
  }

  lemma {:induction false} RunIsFold<T>(w: nat, s: State<T>, es: seq<Event<T>>)
    ensures Run(w, s, es) == Fold(StepOf(w), s, es)
    decreases |es|
  {
    if es == [] {
    } else {
      RunIsFold(w, s, es[..|es| - 1]);
    }
  }

  lemma {:induction false} RunAppend<T>(w: nat, s: State<T>, a: seq<Event<T>>, b: seq<Event<T>>)
    ensures Run(w, s, a + b) == Run(w, Run(w, s, a), b)
  {
    RunIsFold(w, s, a + b);
    RunIsFold(w, s, a);
    RunIsFold(w, Run(w, s, a), b);
    FoldAppend(StepOf(w), s, a, b);
  }

  lemma {:induction false} RunOne<T>(w: nat, s: State<T>, e: Event<T>)
    ensures Run(w, s, [e]) == Step(w, s, e)
  {
    assert [e][..0] == [];
    assert Run(w, s, [e][..0]) == s;
  }

  lemma {:induction false} RunThree<T>(w: nat, s: State<T>, a: Event<T>, b: Event<T>, c: Event<T>)
    ensures Run(w, s, [a, b, c]) == Step(w, Step(w, Step(w, s, a), b), c)
  {
    RunOne(w, s, a);
    RunSnoc(w, s, [a], b);
    RunSnoc(w, s, [a, b], c);
    assert [a] + [b] == [a, b] && [a, b] + [c] == [a, b, c];
  }

  /** What `size` makes of a `head` loaded in state `s` and a `tail` loaded later, in state `t`. */
  ghost predicate SizeInRange<T>(w: nat, s: State<T>, t: State<T>, between: seq<Event<T>>) {
    var size := Distance(w, s.ring.head, t.ring.tail);
    var held := |s.accepted| - |t.received|;
    && held <= s.ring.capacity
    && size == (if w == 0 then held else held % w)
    && (OnlyConsumer(between) || OnlyProducer(between) ==> 0 <= size <= s.ring.capacity)
  }

  /** `size` loads `head`, lets `between` happen, then loads `tail`. Called by either of the two
      threads it is in range; for a third thread it never exceeds the capacity, and it is
      negative (so the unsigned result wraps) exactly when the consumer has passed that `head`. */
  lemma {:induction false} SizeSnapshot<T>(capacity: nat, buf: seq<T>, es: seq<Event<T>>, between: seq<Event<T>>)
    requires Creatable(capacity, buf)
    ensures SizeInRange(TWO64, Run(TWO64, Init(capacity, buf), es),
                        Run(TWO64, Init(capacity, buf), es + between), between)
  {
    var u := Reach(capacity, buf, es);
    var v := Reach(capacity, buf, es + between);
    assert v == Run(0, u, between) by { RunAppend(0, Init(capacity, buf), es, between); }
    SizeIdeal(u, v, between);
    SizeWraps(u, v, between);
  }

  lemma {:induction false} SizeIdeal<T>(u: State<T>, v: State<T>, between: seq<Event<T>>)
    requires Inv(u) && Inv(v) && v == Run(0, u, between)
    ensures SizeInRange(0, u, v, between) && u.ring.capacity < TWO64
  {
    RunMonotone(u, between);
    RunCapacity(0, u, between);
    SnapshotBounds(u, v);
  }

  lemma {:induction false} SizeWraps<T>(u: State<T>, v: State<T>, between: seq<Event<T>>)
    requires SizeInRange(0, u, v, between) && u.ring.capacity < TWO64
    ensures SizeInRange(TWO64, WrapState(u), WrapState(v), between)
  {
    WrapDifference(TWO64, u.ring.head, v.ring.tail);
  }

  lemma {:induction false} SnapshotBounds<T>(u: State<T>, v: State<T>)
    requires Inv(u) && Inv(v) && u.ring.head <= v.ring.head && u.ring.capacity == v.ring.capacity
    ensures |u.accepted| == u.ring.head && |v.received| == v.ring.tail
    ensures u.ring.head - v.ring.tail <= u.ring.capacity < TWO64
    ensures v.ring.head == u.ring.head || v.ring.tail == u.ring.tail ==> 0 <= u.ring.head - v.ring.tail
  {
  }

  /** A third thread can see one element fewer than none. */
  lemma {:induction false} SizeCanWrap(x: int)
    ensures var es := [BeginPush(x), CopyIn, StoreHead, BeginPop, LoadHead(0), CopyOut, StoreTail];
            var s, t := Init(1, [0]), Run(TWO64, Init(1, [0]), es);
            Distance(TWO64, s.ring.head, t.ring.tail) == TWO64 - 1
  {
    var es := [BeginPush(x), CopyIn, StoreHead, BeginPop, LoadHead(0), CopyOut, StoreTail];
    assert Pow2(0) == 1;
    var u := Reach(1, [0], es);
    RunOneRoundTrip(x);
    assert [] + es == es;
    SizeSnapshot(1, [0], [], es);
  }

  lemma {:induction false} RunOneRoundTrip(x: int)
    ensures var es := [BeginPush(x), CopyIn, StoreHead, BeginPop, LoadHead(0), CopyOut, StoreTail];
            Run(0, Init(1, [0]), es).received == [x]
  {
    var push: seq<Event<int>> := [BeginPush(x), CopyIn, StoreHead];
    var pop: seq<Event<int>> := [BeginPop, LoadHead(0), CopyOut, StoreTail];
    assert push + pop == [BeginPush(x), CopyIn, StoreHead, BeginPop, LoadHead(0), CopyOut, StoreTail];
    RunAppend(0, Init(1, [0]), push, pop);
    PushTrace(x);
    PopTrace(x);
  }

  lemma {:induction false} PushTrace(x: int)
    ensures Run(0, Init(1, [0]), [BeginPush(x), CopyIn, StoreHead])
         == State(Ring(1, [x], 1, 0, 0, 0), PIdle, CIdle, [x], [])
  {
    RunThree(0, Init(1, [0]), BeginPush(x), CopyIn, StoreHead);
  }

  lemma {:induction false} PopCopies(x: int)
    ensures var s := State(Ring(1, [x], 1, 0, 0, 0), PIdle, CIdle, [x], []);
            Run(0, s, [BeginPop, LoadHead(0), CopyOut])
              == State(Ring(1, [x], 1, 0, 0, 1), PIdle, CCopy(1, [x]), [x], [])
  {
    var s := State(Ring(1, [x], 1, 0, 0, 0), PIdle, CIdle, [x], []);
    RunThree(0, s, BeginPop, LoadHead(0), CopyOut);
    var s1 := s.(cons := CRefresh(1, false));
    assert Step(0, s, BeginPop) == s1;
    var s2 := State(Ring(1, [x], 1, 0, 0, 1), PIdle, CCopy(1, []), [x], []);
    assert Step(0, s1, LoadHead(0)) == s2;
    CopyOutOnce(s2);
    assert [] + Peek(1, [x], 0, 1) == [x];
  }

  lemma {:induction false} PopTrace(x: int)
    ensures var s := State(Ring(1, [x], 1, 0, 0, 0), PIdle, CIdle, [x], []);
            Run(0, s, [BeginPop, LoadHead(0), CopyOut, StoreTail]).received == [x]
  {
    var s := State(Ring(1, [x], 1, 0, 0, 0), PIdle, CIdle, [x], []);
    var es: seq<Event<int>> := [BeginPop, LoadHead(0), CopyOut];
    PopCopies(x);
    RunSnoc(0, s, es, StoreTail);
    assert es + [StoreTail] == [BeginPop, LoadHead(0), CopyOut, StoreTail];
  }

  // ---- a call that nobody interrupts is the call of `SpscRing` ----

  function Times<T>(e: Event<T>, n: nat): seq<Event<T>> {
    if n == 0 then [] else Times(e, n - 1) + [e]
  }

  function PushNEvents<T>(w: nat, r: Ring<T>, xs: seq<T>): seq<Event<T>>
    requires |r.buf| == r.capacity > 0
  {
    [BeginPushN(xs)] + (if Free(w, r) < |xs| then [LoadTail(0)] else [])
      + Times(CopyIn, PushBatch(w, r, xs).1) + [StoreHead]
  }

  function PopNEvents<T>(w: nat, r: Ring<T>, n: nat): seq<Event<T>>
    requires |r.buf| == r.capacity > 0
  {
    [BeginPopN(n)] + (if Avail(w, r) < n then [LoadHead(0)] else [])
      + Times(CopyOut, |PopBatch(w, r, n).1|) + [StoreTail]
  }

  lemma {:induction false} FillSnoc<T>(n: nat, buf: seq<T>, h: int, xs: seq<T>, k: nat)
    requires n == |buf| && k < |xs| <= n
    ensures Fill(n, buf, h, xs[..k + 1]) == Fill(n, buf, h, xs[..k])[(h + k) % n := xs[k]]
  {
    var a, b := Fill(n, buf, h, xs[..k + 1]), Fill(n, buf, h, xs[..k])[(h + k) % n := xs[k]];
    forall j | 0 <= j < n ensures a[j] == b[j] {
      OffsetOfSlot(h, k, j, n);
    }
  }

  lemma {:induction false} CopyInOnce<T>(s: State<T>)
    requires |s.ring.buf| == s.ring.capacity > 0 && s.prod.PCopy? && s.prod.done < |s.prod.items|
    ensures var r, k := s.ring, s.prod.done;
            Step(0, s, CopyIn) == s.(ring := r.(buf := r.buf[(r.head + k) % r.capacity := s.prod.items[k]]),
                                     prod := PCopy(s.prod.items, k + 1))
  {
  }

  lemma {:induction false} CopyInTimes<T>(s: State<T>, k: nat)
    requires |s.ring.buf| == s.ring.capacity > 0 && s.prod.PCopy? && s.prod.done == 0
    requires k <= |s.prod.items| <= s.ring.capacity
    ensures Run(0, s, Times(CopyIn, k))
         == s.(ring := s.ring.(buf := Fill(s.ring.capacity, s.ring.buf, s.ring.head, s.prod.items[..k])),
               prod := PCopy(s.prod.items, k))
  {
    if k == 0 {
      assert Fill(s.ring.capacity, s.ring.buf, s.ring.head, []) == s.ring.buf;
    } else {
      CopyInTimes(s, k - 1);
      RunSnoc(0, s, Times(CopyIn, k - 1), CopyIn);
      CopyInOnce(Run(0, s, Times(CopyIn, k - 1)));
      FillSnoc(s.ring.capacity, s.ring.buf, s.ring.head, s.prod.items, k - 1);
    }
  }

  lemma {:induction false} CopyOutOnce<T>(s: State<T>)
    requires |s.ring.buf| == s.ring.capacity > 0 && s.cons.CCopy? && |s.cons.got| < s.cons.count
    ensures var r, got := s.ring, s.cons.got;
            Step(0, s, CopyOut)
              == s.(cons := CCopy(s.cons.count, got + Peek(r.capacity, r.buf, r.tail + |got|, 1)))
  {
    var r, got := s.ring, s.cons.got;
    assert Peek(r.capacity, r.buf, r.tail + |got|, 1) == [r.buf[(r.tail + |got|) % r.capacity]];
  }

  lemma {:induction false} CopyOutNext<T>(s: State<T>, count: nat, k: nat)
    requires |s.ring.buf| == s.ring.capacity > 0 && 0 < k <= count
    ensures var r := s.ring;
            Step(0, s.(cons := CCopy(count, Peek(r.capacity, r.buf, r.tail, k - 1))), CopyOut)
              == s.(cons := CCopy(count, Peek(r.capacity, r.buf, r.tail, k)))
  {
    var r := s.ring;
    CopyOutOnce(s.(cons := CCopy(count, Peek(r.capacity, r.buf, r.tail, k - 1))));
    PeekSplit(r.capacity, r.buf, r.tail, k - 1, k);
  }

  lemma {:induction false} CopyOutTimes<T>(s: State<T>, k: nat)
    requires |s.ring.buf| == s.ring.capacity > 0 && s.cons.CCopy? && s.cons.got == []
    requires k <= s.cons.count
    ensures Run(0, s, Times(CopyOut, k))
         == s.(cons := CCopy(s.cons.count, Peek(s.ring.capacity, s.ring.buf, s.ring.tail, k)))
  {
    if k == 0 {
      assert Peek(s.ring.capacity, s.ring.buf, s.ring.tail, 0) == [];
    } else {
      CopyOutTimes(s, k - 1);
      RunSnoc(0, s, Times(CopyOut, k - 1), CopyOut);
      CopyOutNext(s, s.cons.count, k);
    }
  }

  /** Up to the copy: the begin event and, if the cache is not enough, an exact reload. */
  lemma {:induction false} PushPrologue<T>(s: State<T>, xs: seq<T>)
    requires Valid(0, s.ring) && s.prod == PIdle
    ensures var r := s.ring;
            var n := PushBatch(0, r, xs).1;
            Run(0, s, [BeginPushN(xs)] + (if Free(0, r) < |xs| then [LoadTail(0)] else []))
              == s.(ring := if Free(0, r) < |xs| then r.(cachedTail := r.tail) else r,
                    prod := if n == 0 then PIdle else PCopy(xs[..n], 0))
  {
    RunOne(0, s, BeginPushN(xs));
    var s1 := Step(0, s, BeginPushN(xs));
    RunOne(0, s1, LoadTail(0));
    RunAppend(0, s, [BeginPushN(xs)], [LoadTail(0)]);
    assert [BeginPushN(xs)] + [] == [BeginPushN(xs)];
    assert xs[..|xs|] == xs;
  }

  lemma {:induction false} PopPrologue<T>(s: State<T>, n: nat)
    requires Valid(0, s.ring) && s.cons == CIdle
    ensures var r := s.ring;
            var k := |PopBatch(0, r, n).1|;
            Run(0, s, [BeginPopN(n)] + (if Avail(0, r) < n then [LoadHead(0)] else []))
              == s.(ring := if Avail(0, r) < n then r.(cachedHead := r.head) else r,
                    cons := if k == 0 then CIdle else CCopy(k, []))
  {
    RunOne(0, s, BeginPopN(n));
    var s1 := Step(0, s, BeginPopN(n));
    RunOne(0, s1, LoadHead(0));
    RunAppend(0, s, [BeginPopN(n)], [LoadHead(0)]);
    var begin: seq<Event<T>> := [BeginPopN(n)];
    assert begin + [] == begin;
  }

  lemma {:induction false} StoreHeadOnce<T>(s: State<T>, items: seq<T>)
    requires s.prod == PCopy(items, |items|)
    ensures Step(0, s, StoreHead)
         == s.(ring := s.ring.(head := s.ring.head + |items|), prod := PIdle, accepted := s.accepted + items)
  {
  }

  lemma {:induction false} CopyAndStore<T>(s: State<T>, items: seq<T>)
    requires Valid(0, s.ring) && |items| <= s.ring.capacity && s.prod == PCopy(items, 0)
    ensures Run(0, s, Times(CopyIn, |items|) + [StoreHead])
         == s.(ring := s.ring.(buf := Fill(s.ring.capacity, s.ring.buf, s.ring.head, items),
                               head := s.ring.head + |items|),
               prod := PIdle, accepted := s.accepted + items)
  {
    var n, r := |items|, s.ring;
    RunSnoc(0, s, Times(CopyIn, n), StoreHead);
    CopyInTimes(s, n);
    assert items[..n] == items;
    StoreHeadOnce(s.(ring := r.(buf := Fill(r.capacity, r.buf, r.head, items)), prod := PCopy(items, n)), items);
  }

  lemma {:induction false} StoreTailOnce<T>(s: State<T>, got: seq<T>)
    requires s.cons == CCopy(|got|, got)
    ensures Step(0, s, StoreTail)
         == s.(ring := s.ring.(tail := s.ring.tail + |got|), cons := CIdle, received := s.received + got)
  {
  }

  lemma {:induction false} CopyAndTake<T>(s: State<T>, n: nat)
    requires Valid(0, s.ring) && s.cons == CCopy(n, [])
    ensures Run(0, s, Times(CopyOut, n) + [StoreTail])
         == s.(ring := s.ring.(tail := s.ring.tail + n), cons := CIdle,
               received := s.received + Peek(s.ring.capacity, s.ring.buf, s.ring.tail, n))
  {
    var got := Peek(s.ring.capacity, s.ring.buf, s.ring.tail, n);
    RunSnoc(0, s, Times(CopyOut, n), StoreTail);
    CopyOutTimes(s, n);
    StoreTailOnce(s.(cons := CCopy(n, got)), got);
  }

  lemma {:induction false} PushNothing<T>(s: State<T>, xs: seq<T>)
    requires Valid(0, s.ring) && s.prod == PIdle && PushBatch(0, s.ring, xs).1 == 0
    ensures Run(0, s, PushNEvents(0, s.ring, xs)) == s.(ring := PushBatch(0, s.ring, xs).0)
  {
    var pro := [BeginPushN(xs)] + (if Free(0, s.ring) < |xs| then [LoadTail(0)] else []);
    var u := s.(ring := PushBatch(0, s.ring, xs).0);
    PushPrologue(s, xs);
    assert Run(0, s, pro) == u;
    RunSnoc(0, s, pro, StoreHead);
    assert Step(0, u, StoreHead) == u;
    assert PushNEvents(0, s.ring, xs) == pro + [StoreHead];
  }

  lemma {:induction false} PushSome<T>(s: State<T>, xs: seq<T>, n: nat)
    requires Valid(0, s.ring) && s.prod == PIdle && n == PushBatch(0, s.ring, xs).1 > 0
    ensures Run(0, s, PushNEvents(0, s.ring, xs))
         == s.(ring := PushBatch(0, s.ring, xs).0, accepted := s.accepted + xs[..n])
  {
    var pro := [BeginPushN(xs)] + (if Free(0, s.ring) < |xs| then [LoadTail(0)] else []);
    var rest := Times(CopyIn, n) + [StoreHead];
    var r1 := if Free(0, s.ring) < |xs| then s.ring.(cachedTail := s.ring.tail) else s.ring;
    var u := s.(ring := r1, prod := PCopy(xs[..n], 0));
    PushPrologue(s, xs);
    assert Run(0, s, pro) == u;
    CopyAndStore(u, xs[..n]);
    RunAppend(0, s, pro, rest);
    assert PushNEvents(0, s.ring, xs) == pro + rest;
  }

  lemma {:induction false} PushNIsRunIdeal<T>(s: State<T>, xs: seq<T>)
    requires Valid(0, s.ring) && s.prod == PIdle
    ensures var (r, n) := PushBatch(0, s.ring, xs);
            Run(0, s, PushNEvents(0, s.ring, xs)) == s.(ring := r, accepted := s.accepted + xs[..n])
  {
    var n := PushBatch(0, s.ring, xs).1;
    if n == 0 {
      PushNothing(s, xs);
      assert s.accepted + xs[..0] == s.accepted;
    } else {
      PushSome(s, xs, n);
    }
  }

  lemma {:induction false} PopNothing<T>(s: State<T>, n: nat)
    requires Valid(0, s.ring) && s.cons == CIdle && PopBatch(0, s.ring, n).1 == []
    ensures Run(0, s, PopNEvents(0, s.ring, n)) == s.(ring := PopBatch(0, s.ring, n).0)
  {
    var pro := [BeginPopN(n)] + (if Avail(0, s.ring) < n then [LoadHead(0)] else []);
    var u := s.(ring := PopBatch(0, s.ring, n).0);
    PopPrologue(s, n);
    assert Run(0, s, pro) == u;
    RunSnoc(0, s, pro, StoreTail);
    assert Step(0, u, StoreTail) == u;
    assert PopNEvents(0, s.ring, n) == pro + [StoreTail];
  }

  lemma {:induction false} PopSome<T>(s: State<T>, n: nat, k: nat)
    requires Valid(0, s.ring) && s.cons == CIdle && k == |PopBatch(0, s.ring, n).1| > 0
    ensures var (r, out) := PopBatch(0, s.ring, n);
            Run(0, s, PopNEvents(0, s.ring, n)) == s.(ring := r, received := s.received + out)
  {
    var pro := [BeginPopN(n)] + (if Avail(0, s.ring) < n then [LoadHead(0)] else []);
    var rest := Times(CopyOut, k) + [StoreTail];
    var r1 := if Avail(0, s.ring) < n then s.ring.(cachedHead := s.ring.head) else s.ring;
    var u := s.(ring := r1, cons := CCopy(k, []));
    PopPrologue(s, n);
    assert Run(0, s, pro) == u;
    CopyAndTake(u, k);
    RunAppend(0, s, pro, rest);
    assert PopNEvents(0, s.ring, n) == pro + rest;
  }

  lemma {:induction false} PopNIsRunIdeal<T>(s: State<T>, n: nat)
    requires Valid(0, s.ring) && s.cons == CIdle
    ensures var (r, out) := PopBatch(0, s.ring, n);
            Run(0, s, PopNEvents(0, s.ring, n)) == s.(ring := r, received := s.received + out)
  {
    var out := PopBatch(0, s.ring, n).1;
    if out == [] {
      PopNothing(s, n);
      assert s.received + out == s.received;
    } else {
      PopSome(s, n, |out|);
    }
  }

  // -- the single calls --

  function PushEvents<T>(w: nat, r: Ring<T>, x: T): seq<Event<T>> {
    [BeginPush(x)] + (if Distance(w, r.head, r.cachedTail) >= r.capacity then [LoadTail(0)] else [])
      + [CopyIn, StoreHead]
  }

  function PopEvents<T>(r: Ring<T>): seq<Event<T>> {
    [BeginPop] + (if r.tail == r.cachedHead then [LoadHead(0)] else []) + [CopyOut, StoreTail]
  }

  lemma {:induction false} PushOncePrologue<T>(s: State<T>, x: T)
    requires Valid(0, s.ring) && s.prod == PIdle
    ensures var r := s.ring;
            var reload := r.head - r.cachedTail >= r.capacity;
            Run(0, s, [BeginPush(x)] + (if reload then [LoadTail(0)] else []))
              == s.(ring := if reload then r.(cachedTail := r.tail) else r,
                    prod := if PushOnce(0, r, x).1 then PCopy([x], 0) else PIdle)
  {
    RunOne(0, s, BeginPush(x));
    var s1 := Step(0, s, BeginPush(x));
    RunOne(0, s1, LoadTail(0));
    RunAppend(0, s, [BeginPush(x)], [LoadTail(0)]);
    assert [BeginPush(x)] + [] == [BeginPush(x)];
    assert [x][..1] == [x];
  }

  lemma {:induction false} PopOncePrologue<T>(s: State<T>)
    requires Valid(0, s.ring) && s.cons == CIdle
    ensures var r := s.ring;
            var reload := r.tail == r.cachedHead;
            Run(0, s, [BeginPop] + (if reload then [LoadHead(0)] else []))
              == s.(ring := if reload then r.(cachedHead := r.head) else r,
                    cons := if PopOnce(0, r).1 == [] then CIdle else CCopy(1, []))
  {
    RunOne(0, s, BeginPop);
    var s1 := Step(0, s, BeginPop);
    RunOne(0, s1, LoadHead(0));
    var begin: seq<Event<T>> := [BeginPop];
    RunAppend(0, s, begin, [LoadHead(0)]);
    assert begin + [] == begin;
    assert |Peek(s.ring.capacity, s.ring.buf, s.ring.tail, 1)| == 1;
  }

  /** A copy and a store, which do nothing if there is nothing to copy. */
  lemma {:induction false} PushTail<T>(s: State<T>)
    requires Valid(0, s.ring)
    requires s.prod == PIdle || (s.prod.PCopy? && s.prod.done == 0 && |s.prod.items| == 1)
    ensures Run(0, s, [CopyIn, StoreHead])
         == if s.prod == PIdle then s else
            s.(ring := s.ring.(buf := Fill(s.ring.capacity, s.ring.buf, s.ring.head, s.prod.items),
                               head := s.ring.head + 1),
               prod := PIdle, accepted := s.accepted + s.prod.items)
  {
    RunOne(0, s, CopyIn);
    RunSnoc(0, s, [CopyIn], StoreHead);
    var copy: seq<Event<T>> := [CopyIn];
    assert copy + [StoreHead] == [CopyIn, StoreHead];
    if s.prod != PIdle {
      CopyAndStore(s, s.prod.items);
      OneCopy<T>();
    }
  }

  lemma {:induction false} PopTail<T>(s: State<T>)
    requires Valid(0, s.ring) && (s.cons == CIdle || s.cons == CCopy(1, []))
    ensures Run(0, s, [CopyOut, StoreTail])
         == if s.cons == CIdle then s else
            s.(ring := s.ring.(tail := s.ring.tail + 1), cons := CIdle,
               received := s.received + Peek(s.ring.capacity, s.ring.buf, s.ring.tail, 1))
  {
    RunOne(0, s, CopyOut);
    RunSnoc(0, s, [CopyOut], StoreTail);
    var copy: seq<Event<T>> := [CopyOut];
    assert copy + [StoreTail] == [CopyOut, StoreTail];
    if s.cons != CIdle {
      CopyAndTake(s, 1);
      OneCopy<T>();
    }
  }

  lemma {:induction false} OneCopy<T>()
    ensures Times<T>(CopyIn, 1) + [StoreHead] == [CopyIn, StoreHead]
    ensures Times<T>(CopyOut, 1) + [StoreTail] == [CopyOut, StoreTail]
  {
    assert Times<T>(CopyIn, 0) == [] && Times<T>(CopyOut, 0) == [];
  }

  lemma {:induction false} PushIsRunIdeal<T>(s: State<T>, x: T)
    requires Valid(0, s.ring) && s.prod == PIdle
    ensures var (r, ok) := PushOnce(0, s.ring, x);
            Run(0, s, PushEvents(0, s.ring, x)) == s.(ring := r, accepted := s.accepted + if ok then [x] else [])
  {
    var pro := [BeginPush(x)] + (if s.ring.head - s.ring.cachedTail >= s.ring.capacity then [LoadTail(0)] else []);
    PushOncePrologue(s, x);
    PushTail(Run(0, s, pro));
    RunAppend(0, s, pro, [CopyIn, StoreHead]);
    assert s.accepted + [] == s.accepted;
  }

  lemma {:induction false} PopIsRunIdeal<T>(s: State<T>)
    requires Valid(0, s.ring) && s.cons == CIdle
    ensures var (r, out) := PopOnce(0, s.ring);
            Run(0, s, PopEvents(s.ring)) == s.(ring := r, received := s.received + out)
  {
    var pro: seq<Event<T>> := [BeginPop] + (if s.ring.tail == s.ring.cachedHead then [LoadHead(0)] else []);
    PopOncePrologue(s);
    PopTail(Run(0, s, pro));
    RunAppend(0, s, pro, [CopyOut, StoreTail]);
    assert s.received + [] == s.received;
  }

  /** From any reachable state, a call that runs without interruption changes the struct exactly as
      the sequential call does: `push` and `push_n` ... */
  lemma {:induction false} PushesAreRuns<T>(capacity: nat, buf: seq<T>, es: seq<Event<T>>, x: T, xs: seq<T>)
    requires Creatable(capacity, buf)
    ensures var s := Run(TWO64, Init(capacity, buf), es);
            && |s.ring.buf| == s.ring.capacity > 0
            && (s.prod == PIdle ==>
                var (r, ok) := PushOnce(TWO64, s.ring, x);
                Run(TWO64, s, PushEvents(TWO64, s.ring, x))
                  == s.(ring := r, accepted := s.accepted + if ok then [x] else []))
            && (s.prod == PIdle ==>
                var (r, k) := PushBatch(TWO64, s.ring, xs);
                Run(TWO64, s, PushNEvents(TWO64, s.ring, xs))
                  == s.(ring := r, accepted := s.accepted + xs[..k]))
  {
    var u := Reach(capacity, buf, es);
    WrapRingFacts(u.ring);
    PushOnceWraps(u.ring, x);
    PushBatchWraps(u.ring, xs);
    if u.prod == PIdle {
      PushIsRunIdeal(u, x);
      WrapRun(u, PushEvents(0, u.ring, x));
      PushNIsRunIdeal(u, xs);
      WrapRun(u, PushNEvents(0, u.ring, xs));
    }
  }

  /** ... and `pop` and `pop_n`. */
  lemma {:induction false} PopsAreRuns<T>(capacity: nat, buf: seq<T>, es: seq<Event<T>>, n: nat)
    requires Creatable(capacity, buf)
    ensures var s := Run(TWO64, Init(capacity, buf), es);
            && |s.ring.buf| == s.ring.capacity > 0
            && (s.cons == CIdle ==>
                var (r, out) := PopOnce(TWO64, s.ring);
                Run(TWO64, s, PopEvents(s.ring)) == s.(ring := r, received := s.received + out))
            && (s.cons == CIdle ==>
                var (r, out) := PopBatch(TWO64, s.ring, n);
                Run(TWO64, s, PopNEvents(TWO64, s.ring, n)) == s.(ring := r, received := s.received + out))
  {
    var u := Reach(capacity, buf, es);
    WrapRingFacts(u.ring);
    PopOnceWraps(u.ring);
    PopBatchWraps(u.ring, n);
    if u.cons == CIdle {
      PopIsRunIdeal(u);
      WrapEqual(TWO64, u.ring.cachedHead, u.ring.tail);
      WrapRun(u, PopEvents(u.ring));
      PopNIsRunIdeal(u, n);
      WrapRun(u, PopNEvents(0, u.ring, n));
    }
  }
}
