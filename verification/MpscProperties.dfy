/** What the multi-producer queue guarantees in every run with its 64-bit counters, and the exact
condition under which it does. */
module MpscProperties {
  import opened Words
  import opened Runs
  import opened MpscMachine

  // ---- wraparound ----

  function WrapProducer<T>(pr: Producer<T>): Producer<T> {
    match pr
    case Idle => Idle
    case AtTail(v, h, since, lost) => AtTail(v, Wrap(TWO64, h), since, lost)
    case AtSwap(v, h, since, lost) => AtSwap(v, Wrap(TWO64, h), since, lost)
    case AtWrite(v, t) => AtWrite(v, Wrap(TWO64, t))
    case AtPublish(v, t) => AtPublish(v, Wrap(TWO64, t))
  }

  function WrapConsumer<T>(c: Consumer<T>): Consumer<T> {
    match c
    case CIdle => CIdle
    case CAtHead(t) => CAtHead(Wrap(TWO64, t))
    case CAtReady(t) => CAtReady(Wrap(TWO64, t))
    case CAtTake(t) => CAtTake(Wrap(TWO64, t))
    case CAtClear(t, x) => CAtClear(Wrap(TWO64, t), x)
    case CAtStore(t, x) => CAtStore(Wrap(TWO64, t), x)
  }

  function WrapQueue<T>(q: Queue<T>): Queue<T> {
    q.(head := Wrap(TWO64, q.head), tail := Wrap(TWO64, q.tail))
  }

  function WrapProducers<T>(m: map<nat, Producer<T>>): map<nat, Producer<T>> {
    map p | p in m :: WrapProducer(m[p])
  }

  function WrapState<T>(s: State<T>): State<T> {
    s.(q := WrapQueue(s.q), prods := WrapProducers(s.prods), cons := WrapConsumer(s.cons))
  }

  predicate Divides(n: nat) {
    n == 0 || TWO64 % n == 0
  }

  lemma {:induction false} WrapIndex(n: nat, i: int)
    requires Divides(n) || 0 <= i < TWO64
    ensures Index(n, Wrap(TWO64, i)) == Index(n, i)
  {
    if 0 <= i < TWO64 {
      ModSmall(i, TWO64);
    } else if n != 0 {
      ModMod(i, TWO64, n);
    }
  }

  /** The code's tests cannot tell a counter from its wrapped value. */
  lemma {:induction false} WrapTests(n: nat, a: int, b: int)
    ensures Full(n, Wrap(TWO64, a), Wrap(TWO64, b)) == Full(n, a, b)
    ensures Same(Wrap(TWO64, a), Wrap(TWO64, b)) == Same(a, b)
  {
    WrapDifference(TWO64, a, b);
    ModReduce(a, 0, TWO64);
    ModReduce(b, 0, TWO64);
  }

  lemma {:induction false} WrapSet<T>(s: State<T>, p: nat, pr: Producer<T>)
    ensures WrapProducers(s.prods[p := pr]) == WrapProducers(s.prods)[p := WrapProducer(pr)]
    ensures ProducerOf(WrapState(s), p) == WrapProducer(ProducerOf(s, p))
  {
  }

  lemma {:induction false} WrapLoadTail<T>(s: State<T>, p: nat)
    ensures StepLoadTail(WrapState(s), p) == WrapState(StepLoadTail(s, p))
  {
    WrapSet(s, p, Idle);
    match ProducerOf(s, p)
    case AtTail(value, head, since, lost) =>
      WrapTests(s.q.capacity, head, s.q.tail);
      WrapSet(s, p, AtSwap(value, head, since, lost));
    case _ =>
  }

  lemma {:induction false} WrapSwap<T>(s: State<T>, p: nat, spurious: bool)
    ensures StepSwap(TWO64, WrapState(s), p, spurious) == WrapState(StepSwap(0, s, p, spurious))
  {
    WrapSet(s, p, Idle);
    match ProducerOf(s, p)
    case AtSwap(value, head, since, lost) =>
      WrapTests(s.q.capacity, head, s.q.head);
      WrapAdvance(TWO64, s.q.head, 1);
      WrapSet(s, p, AtWrite(value, s.q.head));
      WrapSet(s, p, AtTail(value, s.q.head, since, if Same(head, s.q.head) then lost else lost + 1));
    case _ =>
  }

  /** The steps that touch the cell of a ticket. */
  lemma {:induction false} WrapCellSteps<T>(s: State<T>, p: nat, junk: T)
    requires InFlight(ProducerOf(s, p)) != [] ==>
               var i := ProducerOf(s, p).ticket; Index(s.q.capacity, Wrap(TWO64, i)) == Index(s.q.capacity, i)
    ensures StepScribble(WrapState(s), p, junk) == WrapState(StepScribble(s, p, junk))
    ensures StepWrite(WrapState(s), p) == WrapState(StepWrite(s, p))
    ensures StepPublish(WrapState(s), p) == WrapState(StepPublish(s, p))
  {
    WrapSet(s, p, Idle);
    var pr := ProducerOf(s, p);
    if InFlight(pr) != [] { WrapSet(s, p, AtPublish(pr.value, pr.ticket)); }
  }

  lemma {:induction false} WrapConsumerCell<T>(s: State<T>, e: Event<T>)
    requires s.cons.CAtReady? || s.cons.CAtTake? || s.cons.CAtClear?
    requires Index(s.q.capacity, Wrap(TWO64, s.cons.tail)) == Index(s.q.capacity, s.cons.tail)
    ensures StepConsumer(TWO64, WrapState(s), e) == WrapState(StepConsumer(0, s, e))
  {
  }

  lemma {:induction false} WrapConsumerCounter<T>(s: State<T>, e: Event<T>)
    requires s.cons.CIdle? || s.cons.CAtHead? || s.cons.CAtStore?
    ensures StepConsumer(TWO64, WrapState(s), e) == WrapState(StepConsumer(0, s, e))
  {
    if s.cons.CAtHead? { WrapTests(s.q.capacity, s.q.head, s.cons.tail); }
    if s.cons.CAtStore? { WrapAdvance(TWO64, s.cons.tail, 1); }
  }

  /** Where 64-bit tickets find the cells of the true ones: always, if the capacity divides 2^64, and
      otherwise until the counters wrap. */
  ghost predicate FindsCells<T>(s: State<T>) {
    Divides(s.q.capacity) || (Inv(s) && s.q.head <= TWO64)
  }

  lemma {:induction false} WrapConsumerStep<T>(s: State<T>, e: Event<T>)
    requires FindsCells(s)
    ensures StepConsumer(TWO64, WrapState(s), e) == WrapState(StepConsumer(0, s, e))
  {
    if s.cons.CIdle? || s.cons.CAtHead? || s.cons.CAtStore? {
      WrapConsumerCounter(s, e);
    } else {
      WrapIndex(s.q.capacity, s.cons.tail);
      WrapConsumerCell(s, e);
    }
  }

  lemma {:induction false} WrapTicket<T>(s: State<T>, p: nat)
    requires FindsCells(s) && InFlight(ProducerOf(s, p)) != []
    ensures var i := ProducerOf(s, p).ticket; Index(s.q.capacity, Wrap(TWO64, i)) == Index(s.q.capacity, i)
  {
    assert Divides(s.q.capacity) || ProducerInv(s, p);
    WrapIndex(s.q.capacity, ProducerOf(s, p).ticket);
  }

  lemma {:induction false} WrapStep<T>(s: State<T>, e: Event<T>)
    requires FindsCells(s)
    ensures Step(TWO64, WrapState(s), e) == WrapState(Step(0, s, e))
  {
    match e
    case LoadHead(p, value) => WrapSet(s, p, AtTail(value, s.q.head, |s.claims|, 0));
    case LoadTail(p) => WrapLoadTail(s, p);
    case Swap(p, spurious) => WrapSwap(s, p, spurious);
    case Scribble(p, junk) => WrapCellEvent(s, p, junk);
    case Write(p) => WrapHeldCell(s, p);
    case Publish(p) => WrapHeldCell(s, p);
    case _ => WrapConsumerStep(s, e);
  }

  lemma {:induction false} WrapCellEvent<T>(s: State<T>, p: nat, junk: T)
    requires FindsCells(s)
    ensures StepScribble(WrapState(s), p, junk) == WrapState(StepScribble(s, p, junk))
    ensures StepWrite(WrapState(s), p) == WrapState(StepWrite(s, p))
    ensures StepPublish(WrapState(s), p) == WrapState(StepPublish(s, p))
  {
    if InFlight(ProducerOf(s, p)) != [] { WrapTicket(s, p); }
    WrapCellSteps(s, p, junk);
  }

  lemma {:induction false} WrapHeldCell<T>(s: State<T>, p: nat)
    requires FindsCells(s)
    ensures StepWrite(WrapState(s), p) == WrapState(StepWrite(s, p))
    ensures StepPublish(WrapState(s), p) == WrapState(StepPublish(s, p))
  {
    if InFlight(ProducerOf(s, p)) != [] {
      WrapCellEvent(s, p, ProducerOf(s, p).value);
    } else {
      WrapSet(s, p, Idle);
    }
  }

  lemma {:induction false} StepClaims<T>(w: nat, s: State<T>, e: Event<T>)
    ensures s.claims <= Step(w, s, e).claims
    ensures Step(w, s, e).q.capacity == s.q.capacity
  {
  }

  lemma {:induction false} RunCapacity<T>(w: nat, s: State<T>, es: seq<Event<T>>)
    ensures Run(w, s, es).q.capacity == s.q.capacity
    decreases |es|
  {
    if es == [] {
    } else {
      RunCapacity(w, s, es[..|es| - 1]);
      StepClaims(w, Run(w, s, es[..|es| - 1]), es[|es| - 1]);
    }
  }

  /** If the capacity divides 2^64, the queue with 64-bit counters runs as the one that remembers how
      often they have come round, whatever happens. */
  lemma {:induction false} WrapRun<T>(s: State<T>, es: seq<Event<T>>)
    requires Divides(s.q.capacity)
    ensures Run(TWO64, WrapState(s), es) == WrapState(Run(0, s, es))
    decreases |es|
  {
    if es == [] {
    } else {
      WrapRun(s, es[..|es| - 1]);
      RunCapacity(0, s, es[..|es| - 1]);
      WrapStep(Run(0, s, es[..|es| - 1]), es[|es| - 1]);
    }
  }

  /** What a run needs: no swap comes too late, and the capacity divides 2^64 or no more than 2^64
      tickets have been claimed. */
  ghost predicate Sound<T>(s: State<T>, es: seq<Event<T>>) {
    Timely(s, es) && (Divides(s.q.capacity) || |Run(0, s, es).claims| <= TWO64)
  }

  lemma {:induction false} SoundBefore<T>(s: State<T>, es: seq<Event<T>>)
    requires Sound(s, es) && es != []
    ensures Sound(s, es[..|es| - 1])
  {
    StepClaims(0, Run(0, s, es[..|es| - 1]), es[|es| - 1]);
  }

  /** Then the queue with 64-bit counters runs as the one that remembers, and keeps the invariant. */
  lemma {:induction false} SoundRun<T>(s: State<T>, es: seq<Event<T>>)
    requires Inv(s) && Sound(s, es)
    ensures Run(TWO64, WrapState(s), es) == WrapState(Run(0, s, es))
    ensures Inv(Run(0, s, es)) && FindsCells(Run(0, s, es))
    decreases |es|
  {
    RunInv(s, es);
    RunCapacity(0, s, es);
    if es == [] {
    } else {
      SoundBefore(s, es);
      SoundRun(s, es[..|es| - 1]);
      WrapStep(Run(0, s, es[..|es| - 1]), es[|es| - 1]);
    }
  }

  /** Every run with at most 2^64 claims is sound. */
  lemma {:induction false} FewClaims<T>(s: State<T>, es: seq<Event<T>>)
    requires Inv(s) && |Run(0, s, es).claims| <= TWO64
    ensures Sound(s, es)
    decreases |es|
  {
    if es == [] {
    } else {
      var before, e := es[..|es| - 1], es[|es| - 1];
      var u := Run(0, s, before);
      StepClaims(0, u, e);
      FewClaims(s, before);
      RunInv(s, before);
      if TooLate(u, e) {
        assert ProducerInv(u, e.p);
        WrapEqual(TWO64, u.q.head, ProducerOf(u, e.p).head);
      }
    }
  }

  /** Whenever the run goes on, every push at its swap has been overtaken by at most `b` claims since it
      loaded `head`. */
  ghost predicate OvertakenByAtMost<T>(s: State<T>, es: seq<Event<T>>, b: nat)
    decreases |es|
  {
    es == [] || (OvertakenByAtMost(s, es[..|es| - 1], b) && NoneFurtherBehind(Run(0, s, es[..|es| - 1]), b))
  }

  ghost predicate NoneFurtherBehind<T>(u: State<T>, b: nat) {
    forall p: nat :: ProducerOf(u, p).AtSwap? ==> u.q.head - ProducerOf(u, p).head <= b
  }

  /** With fewer than 2^64 such claims no swap comes too late, however many the whole run makes. */
  lemma {:induction false} OvertakenInTime<T>(s: State<T>, es: seq<Event<T>>)
    requires Inv(s) && OvertakenByAtMost(s, es, TWO64 - 1)
    ensures Timely(s, es)
    decreases |es|
  {
    if es == [] {
    } else {
      var before, e := es[..|es| - 1], es[|es| - 1];
      OvertakenInTime(s, before);
      RunInv(s, before);
      var u := Run(0, s, before);
      if TooLate(u, e) {
        assert ProducerInv(u, e.p);
        WrapEqual(TWO64, u.q.head, ProducerOf(u, e.p).head);
      }
    }
  }

  /** A swap that comes too late claims one ticket more than there are cells, so the condition is
      exact: the claims stay within the capacity if and only if no swap comes too late. */
  lemma {:induction false} WithinCapacityIffTimely<T>(capacity: nat, cells: seq<Cell<T>>, es: seq<Event<T>>)
    requires Creatable(capacity, cells)
    requires Divides(capacity) || |Run(0, Init(capacity, cells), es).claims| <= TWO64
    ensures Timely(Init(capacity, cells), es) <==>
            forall k :: 0 <= k <= |es| ==> Outstanding(Run(TWO64, Init(capacity, cells), es[..k])) <= capacity
    decreases |es|
  {
    var s0 := Init(capacity, cells);
    InitInv(capacity, cells);
    if !Divides(capacity) { FewClaims(s0, es); }
    if Timely(s0, es) {
      forall k | 0 <= k <= |es| ensures Outstanding(Run(TWO64, s0, es[..k])) <= capacity {
        WithinCapacity(capacity, cells, es, k);
      }
    } else {
      LateSwapExceeds(capacity, cells, es);
    }
  }

  lemma {:induction false} LateSwapExceeds<T>(capacity: nat, cells: seq<Cell<T>>, es: seq<Event<T>>)
    requires Creatable(capacity, cells) && Divides(capacity) && !Timely(Init(capacity, cells), es)
    ensures exists k :: 0 <= k <= |es| && Outstanding(Run(TWO64, Init(capacity, cells), es[..k])) > capacity
    decreases |es|
  {
    var s0, before := Init(capacity, cells), es[..|es| - 1];
    InitInv(capacity, cells);
    if Timely(s0, before) {
      assert WrapState(s0) == s0;
      assert es[..|es|] == es;
      WrapRun(s0, es);
      RunInv(s0, before);
      RunCapacity(0, s0, before);
      assert Outstanding(Run(TWO64, s0, es[..|es|])) == capacity + 1;
    } else {
      LateSwapExceeds(capacity, cells, before);
      var k :| 0 <= k <= |before| && Outstanding(Run(TWO64, s0, before[..k])) > capacity;
      assert before[..k] == es[..k];
    }
  }

  function Outstanding<T>(s: State<T>): int {
    |s.claims| - |s.popped|
  }

  lemma {:induction false} WithinCapacity<T>(capacity: nat, cells: seq<Cell<T>>, es: seq<Event<T>>, k: nat)
    requires Creatable(capacity, cells) && Sound(Init(capacity, cells), es) && k <= |es|
    ensures Outstanding(Run(TWO64, Init(capacity, cells), es[..k])) <= capacity
    decreases |es|
  {
    if k == |es| {
      assert es[..k] == es;
      var u := Reach(capacity, cells, es);
    } else {
      assert es[..|es| - 1][..k] == es[..k];
      SoundBefore(Init(capacity, cells), es);
      WithinCapacity(capacity, cells, es[..|es| - 1], k);
    }
  }

  /** The slots of a lap are distinct for every word-sized ticket exactly when the capacity
      divides 2^64; `idx % capacity` is not checked for it. */
  lemma {:induction false} WordSlotsDistinctIffDivides(n: nat)
    requires 0 < n < TWO64
    ensures (forall a: nat, b: nat :: a < b < a + n ==> Wrap(TWO64, a) % n != Wrap(TWO64, b) % n)
       <==> TWO64 % n == 0
  {
    if TWO64 % n == 0 {
      forall a: nat, b: nat | a < b < a + n ensures Wrap(TWO64, a) % n != Wrap(TWO64, b) % n {
        ModMod(a, TWO64, n);
        ModMod(b, TWO64, n);
        SlotsDistinct(a, b, n);
      }
    } else {
      var r := TWO64 % n;
      var t: nat := TWO64 - r;
      assert t == n * (TWO64 / n);
      DivModUnique(t, n, TWO64 / n, 0);
      ModSmall(t, TWO64);
      assert Wrap(TWO64, t) % n == Wrap(TWO64, t + r) % n;
    }
  }

  // ---- the theorems ----

  ghost predicate Creatable<T>(capacity: nat, cells: seq<Cell<T>>) {
    |cells| == capacity < TWO64 && forall c :: c in cells ==> !c.ready
  }

  lemma {:induction false} Reach<T>(capacity: nat, cells: seq<Cell<T>>, es: seq<Event<T>>) returns (u: State<T>)
    requires Creatable(capacity, cells) && Sound(Init(capacity, cells), es)
    ensures u == Run(0, Init(capacity, cells), es) && Inv(u) && FindsCells(u) && u.q.capacity == capacity
    ensures Run(TWO64, Init(capacity, cells), es) == WrapState(u)
  {
    u := Run(0, Init(capacity, cells), es);
    InitInv(capacity, cells);
    assert WrapState(Init(capacity, cells)) == Init(capacity, cells);
    SoundRun(Init(capacity, cells), es);
    RunCapacity(0, Init(capacity, cells), es);
  }

  lemma {:induction false} ClaimedByPrefix<T>(claims: seq<Claim<T>>, n: nat, p: nat)
    requires n <= |claims|
    ensures ClaimedBy(claims[..n], p) <= ClaimedBy(claims, p)
    ensures n < |claims| && claims[n].pid == p ==> |ClaimedBy(claims[..n], p)| < |ClaimedBy(claims, p)|
    decreases |claims|
  {
    if n == |claims| {
      assert claims[..n] == claims;
    } else {
      var before := claims[..|claims| - 1];
      ClaimedByPrefix(before, n, p);
      assert before[..n] == claims[..n];
      if n == |claims| - 1 { assert before == claims[..n]; }
    }
  }

  /** Every value `p` had popped so far is one its calls returned true for, in its own order. */
  lemma {:induction false} OwnOrder<T>(s: State<T>, p: nat)
    requires Inv(s)
    ensures ClaimedBy(s.claims[..s.q.tail], p) <= ReturnedTo(s, p)
  {
    assert ProducerInv(s, p) && ReturnedInv(s, p);
    ClaimedByPrefix(s.claims, s.q.tail, p);
    var pr := ProducerOf(s, p);
    if pr.AtWrite? || pr.AtPublish? {
      ClaimedByPrefix(s.claims, pr.ticket, p);
      ClaimedByPrefix(s.claims[..pr.ticket], s.q.tail, p);
      assert s.claims[..pr.ticket][..s.q.tail] == s.claims[..s.q.tail];
    }
  }

  /** Exactly-once FIFO: what has been popped is the claimed values in claim order, the outstanding
      claims never exceed the capacity, and each producer's values come out in its push order. */
  lemma {:induction false} Delivery<T>(capacity: nat, cells: seq<Cell<T>>, es: seq<Event<T>>, p: nat)
    requires Creatable(capacity, cells) && Sound(Init(capacity, cells), es)
    ensures InOrder(Run(TWO64, Init(capacity, cells), es), capacity, p)
  {
    var u := Reach(capacity, cells, es);
    OwnOrder(u, p);
    assert ReturnedInv(u, p);
  }

  ghost predicate InOrder<T>(s: State<T>, capacity: nat, p: nat) {
    && |s.popped| <= |s.claims| <= |s.popped| + capacity
    && s.popped == Values(s.claims[..|s.popped|])
    && ClaimedBy(s.claims[..|s.popped|], p) <= ReturnedTo(s, p) <= ClaimedBy(s.claims, p)
  }

  /** In particular for a capacity that divides 2^64, in runs of any length in which no push is overtaken
      by 2^64 claims before its swap. */
  lemma {:induction false} DeliveryBelowWord<T>(capacity: nat, cells: seq<Cell<T>>, es: seq<Event<T>>, p: nat)
    requires Creatable(capacity, cells) && Divides(capacity)
    requires OvertakenByAtMost(Init(capacity, cells), es, TWO64 - 1)
    ensures InOrder(Run(TWO64, Init(capacity, cells), es), capacity, p)
  {
    InitInv(capacity, cells);
    OvertakenInTime(Init(capacity, cells), es);
    Delivery(capacity, cells, es, p);
  }

  /** Producers in flight and a consumer past its ready check all work on different cells. */
  ghost predicate Exclusive<T>(s: State<T>) {
    && (forall a: nat, b: nat :: a != b ==> DifferentCells(s, ProducerOf(s, a), ProducerOf(s, b)))
    && (forall a: nat :: ConsumerElsewhere(s, ProducerOf(s, a)))
  }

  ghost predicate DifferentCells<T>(s: State<T>, x: Producer<T>, y: Producer<T>) {
    InFlight(x) != [] && InFlight(y) != [] ==> Index(s.q.capacity, x.ticket) != Index(s.q.capacity, y.ticket)
  }

  ghost predicate ConsumerElsewhere<T>(s: State<T>, x: Producer<T>) {
    InFlight(x) != [] && (s.cons.CAtTake? || s.cons.CAtClear? || s.cons.CAtStore?) ==>
      Index(s.q.capacity, x.ticket) != Index(s.q.capacity, s.cons.tail)
  }

  /** The cell of outstanding ticket `i` is ready exactly when its producer has published it and
      the consumer has not cleared it. */
  ghost predicate ReadyWhenPublished<T>(w: nat, s: State<T>, i: int)
    requires |s.popped| <= i < |s.claims|
  {
    ReadyAt(s.q, Wrap(w, i)) <==>
      && !Holding(ProducerOf(s, s.claims[i].pid), Wrap(w, i))
      && !(i == |s.popped| && s.cons.CAtStore?)
  }

  lemma {:induction false} ExclusiveIdeal<T>(s: State<T>)
    requires Inv(s)
    ensures Exclusive(s)
  {
    forall a: nat, b: nat | a != b ensures DifferentCells(s, ProducerOf(s, a), ProducerOf(s, b)) {
      assert ProducerInv(s, a) && ProducerInv(s, b);
      var x, y := ProducerOf(s, a), ProducerOf(s, b);
      if InFlight(x) != [] && InFlight(y) != [] {
        if x.ticket < y.ticket { SlotsDistinct(x.ticket, y.ticket, s.q.capacity); }
        if y.ticket < x.ticket { SlotsDistinct(y.ticket, x.ticket, s.q.capacity); }
      }
    }
    forall a: nat ensures ConsumerElsewhere(s, ProducerOf(s, a)) {
      assert ProducerInv(s, a);
      var x := ProducerOf(s, a);
      if InFlight(x) != [] && s.q.tail < x.ticket { SlotsDistinct(s.q.tail, x.ticket, s.q.capacity); }
    }
  }

  lemma {:induction false} ExclusiveWraps<T>(s: State<T>)
    requires Inv(s) && FindsCells(s) && Exclusive(s)
    ensures Exclusive(WrapState(s))
  {
    var s' := WrapState(s);
    if s.cons.CAtTake? || s.cons.CAtClear? || s.cons.CAtStore? { WrapIndex(s.q.capacity, s.cons.tail); }
    forall a: nat ensures ProducerOf(s', a) == WrapProducer(ProducerOf(s, a))
                       && SameCell(s, ProducerOf(s, a)) {
      assert ProducerInv(s, a);
      if InFlight(ProducerOf(s, a)) != [] { WrapTicket(s, a); }
    }
    forall a: nat, b: nat | a != b ensures DifferentCells(s', ProducerOf(s', a), ProducerOf(s', b)) {
      assert DifferentCells(s, ProducerOf(s, a), ProducerOf(s, b));
    }
    forall a: nat ensures ConsumerElsewhere(s', ProducerOf(s', a)) {
      assert ConsumerElsewhere(s, ProducerOf(s, a));
    }
  }

  ghost predicate SameCell<T>(s: State<T>, x: Producer<T>) {
    InFlight(x) != [] ==> Index(s.q.capacity, WrapProducer(x).ticket) == Index(s.q.capacity, x.ticket)
  }

  lemma {:induction false} ReadyIdeal<T>(s: State<T>, i: int)
    requires Inv(s) && s.q.tail <= i < s.q.head
    ensures ReadyWhenPublished(0, s, i)
  {
    assert TicketInv(s, i) && ProducerInv(s, s.claims[i].pid);
  }

  lemma {:induction false} ReadyWraps<T>(s: State<T>, i: int)
    requires Inv(s) && FindsCells(s) && s.q.tail <= i < s.q.head && ReadyWhenPublished(0, s, i)
    ensures ReadyWhenPublished(TWO64, WrapState(s), i)
  {
    WrapIndex(s.q.capacity, i);
    var p := s.claims[i].pid;
    assert ProducerInv(s, p);
    WrapSet(s, p, Idle);
    var pr := ProducerOf(s, p);
    if InFlight(pr) != [] {
      if pr.ticket <= i { WrapEqual(TWO64, i, pr.ticket); } else { WrapEqual(TWO64, pr.ticket, i); }
    }
  }

  /** In every run: no two threads share a cell, and the ready flag means what it should, also on the
      cells the next tickets will get. */
  lemma {:induction false} SlotExclusivity<T>(capacity: nat, cells: seq<Cell<T>>, es: seq<Event<T>>, i: int)
    requires Creatable(capacity, cells) && Sound(Init(capacity, cells), es)
    ensures var s := Run(TWO64, Init(capacity, cells), es);
            && Exclusive(s)
            && (|s.popped| <= i < |s.claims| ==> ReadyWhenPublished(TWO64, s, i))
            && (|s.claims| <= i < |s.popped| + capacity && (Divides(capacity) || i < TWO64) ==>
                !ReadyAt(s.q, Wrap(TWO64, i)))
  {
    var u := Reach(capacity, cells, es);
    ExclusiveIdeal(u);
    ExclusiveWraps(u);
    if |u.claims| <= i < |u.popped| + capacity && (Divides(capacity) || i < TWO64) {
      assert !CellAt(u.q, i).ready;
      WrapIndex(capacity, i);
    }
    if |u.popped| <= i < |u.claims| {
      ReadyIdeal(u, i);
      ReadyWraps(u, i);
    }
  }

  // ---- why a call fails ----

  /** A push gives up exactly when, at its load of `tail`, the queue held `capacity` claims and its
      `head` was current, or the consumer had already passed its stale `head` and the unsigned
      difference looks full, as it does unless the head is within a capacity of 2^64 behind. */
  lemma {:induction false} FailedPush<T>(capacity: nat, cells: seq<Cell<T>>, es: seq<Event<T>>, p: nat)
    requires Creatable(capacity, cells) && Sound(Init(capacity, cells), es)
    ensures var s, u := Run(TWO64, Init(capacity, cells), es), Run(0, Init(capacity, cells), es);
            ProducerOf(u, p).AtTail? ==>
              var head := ProducerOf(u, p).head;
              && ProducerOf(s, p).AtTail?
              && (ProducerOf(Step(TWO64, s, LoadTail(p)), p).Idle? <==>
                  FullOrPassed(capacity, head, |s.claims|, |s.popped|))
              && (head < |s.popped| <= head + TWO64 - capacity ==> Distance(TWO64, head, |s.popped|) >= capacity)
  {
    var u := Reach(capacity, cells, es);
    WrapSet(u, p, Idle);
    LoadTailGivesUp(u, p);
    assert ProducerInv(u, p);
    if ProducerOf(u, p).AtTail? { FullMeans(capacity, ProducerOf(u, p).head, u.q.tail, u.q.head); }
  }

  /** The queue is full and the loaded `head` current, or the consumer has passed it and the unsigned
      difference looks full. */
  predicate FullOrPassed(capacity: nat, head: int, claimed: int, popped: int) {
    || (claimed - popped == capacity && head == claimed)
    || (head < popped && Distance(TWO64, head, popped) >= capacity)
  }

  lemma {:induction false} LoadTailGivesUp<T>(u: State<T>, p: nat)
    ensures ProducerOf(u, p).AtTail? ==>
              (ProducerOf(Step(TWO64, WrapState(u), LoadTail(p)), p).Idle? <==>
               Full(u.q.capacity, ProducerOf(u, p).head, u.q.tail))
  {
    WrapLoadTail(u, p);
    WrapSet(StepLoadTail(u, p), p, Idle);
  }

  lemma {:induction false} FullMeans(n: nat, head: int, tail: int, current: int)
    requires n < TWO64 && tail <= current <= tail + n && head <= current
    ensures Full(n, head, tail) <==>
              (current - tail == n && head == current) || (head < tail && Distance(TWO64, head, tail) >= n)
    ensures head < tail <= head + TWO64 - n ==> Distance(TWO64, head, tail) >= n
  {
    var d := head - tail;
    if d >= 0 {
      ModSmall(d, TWO64);
    } else if d >= n - TWO64 {
      ModShift(d, TWO64, 1);
      ModSmall(d + TWO64, TWO64);
    }
  }

  /** One step seen by a push in its retry loop: it goes on with the same value, a swap that fails
      bringing it back to the load of `tail` with the current `head`; or its swap claims the next
      ticket; or its load of `tail` finds the queue looking full. */
  lemma {:induction false} LoopStep<T>(w: nat, s: State<T>, e: Event<T>, p: nat)
    requires Retrying(ProducerOf(s, p))
    ensures var pr, t := ProducerOf(s, p), Step(w, s, e);
            var pr' := ProducerOf(t, p);
            || (&& Retrying(pr') && pr'.value == pr.value && pr'.since == pr.since
                && (e.Swap? && e.p == p && pr.AtSwap? ==> pr'.AtTail? && pr'.head == s.q.head))
            || (t.claims == s.claims + [Claim(p, pr.value)] && pr' == AtWrite(pr.value, s.q.head))
            || (&& e == LoadTail(p) && pr.AtTail? && Full(s.q.capacity, pr.head, s.q.tail)
                && pr'.Idle? && t.claims == s.claims && ReturnedTo(t, p) == ReturnedTo(s, p))
  {
  }

  /** How a push leaves its loop, in every interleaving: with the next ticket, or at a load of `tail`
      that finds the queue full or its head passed. A swap that fails, for whatever reason, makes it try
      again with the `head` of that moment. */
  lemma {:induction false} HowPushEnds<T>(capacity: nat, cells: seq<Cell<T>>, es: seq<Event<T>>, e: Event<T>, p: nat)
    requires Creatable(capacity, cells) && Sound(Init(capacity, cells), es)
    ensures var s, u := Run(TWO64, Init(capacity, cells), es), Run(0, Init(capacity, cells), es);
            Retrying(ProducerOf(s, p)) ==>
              var pr, t, now := ProducerOf(s, p), Step(TWO64, s, e), Wrap(TWO64, |s.claims|);
              var pr' := ProducerOf(t, p);
              || (&& Retrying(pr') && pr'.value == pr.value && pr'.since == pr.since
                  && (e.Swap? && e.p == p && pr.AtSwap? ==> pr'.AtTail? && pr'.head == now))
              || (t.claims == s.claims + [Claim(p, pr.value)] && pr' == AtWrite(pr.value, now))
              || (&& e == LoadTail(p) && ProducerOf(u, p).AtTail?
                  && FullOrPassed(capacity, ProducerOf(u, p).head, |s.claims|, |s.popped|)
                  && pr'.Idle? && t.claims == s.claims && ReturnedTo(t, p) == ReturnedTo(s, p))
  {
    var u := Reach(capacity, cells, es);
    if Retrying(ProducerOf(WrapState(u), p)) {
      LoopStep(TWO64, WrapState(u), e, p);
      WrapSet(u, p, Idle);
      FailedPush(capacity, cells, es, p);
    }
  }

  ghost predicate OnlyBy<T>(es: seq<Event<T>>, p: nat) {
    forall e :: e in es && IsProducer(e) ==> e.p == p
  }

  predicate IsProducer<T>(e: Event<T>) {
    e.LoadHead? || e.LoadTail? || e.Swap? || e.Scribble? || e.Write? || e.Publish?
  }

  /** With one producer its `head` is never stale. */
  ghost predicate Current<T>(s: State<T>, p: nat) {
    ProducerOf(s, p).AtTail? || ProducerOf(s, p).AtSwap? ==> ProducerOf(s, p).head == s.q.head
  }

  lemma {:induction false} SoleProducerCurrent<T>(w: nat, s: State<T>, es: seq<Event<T>>, p: nat)
    requires Current(s, p) && OnlyBy(es, p)
    ensures Current(Run(w, s, es), p)
    decreases |es|
  {
    if es == [] {
    } else {
      var before, e := es[..|es| - 1], es[|es| - 1];
      SoleProducerCurrent(w, s, before, p);
      SoleStep(w, Run(w, s, before), e, p);
    }
  }

  lemma {:induction false} SoleStep<T>(w: nat, s: State<T>, e: Event<T>, p: nat)
    requires Current(s, p) && (IsProducer(e) ==> e.p == p)
    ensures Current(Step(w, s, e), p)
  {
  }

  /** With one producer a push fails exactly when the queue is full. */
  lemma {:induction false} SoleProducerFailedPush<T>(capacity: nat, cells: seq<Cell<T>>, es: seq<Event<T>>, p: nat)
    requires Creatable(capacity, cells) && Sound(Init(capacity, cells), es) && OnlyBy(es, p)
    ensures var s := Run(TWO64, Init(capacity, cells), es);
            ProducerOf(s, p).AtTail? ==>
              (ProducerOf(Step(TWO64, s, LoadTail(p)), p).Idle? <==> |s.claims| - |s.popped| == capacity)
  {
    var u := Reach(capacity, cells, es);
    WrapSet(u, p, Idle);
    FailedPush(capacity, cells, es, p);
    SoleProducerCurrent(0, Init(capacity, cells), es, p);
  }

  /** A pop gives up exactly when the queue was empty at its load of `head`, or when the oldest
      ticket was not yet published at its load of the ready flag. */
  lemma {:induction false} FailedPop<T>(capacity: nat, cells: seq<Cell<T>>, es: seq<Event<T>>)
    requires Creatable(capacity, cells) && Sound(Init(capacity, cells), es)
    ensures var s := Run(TWO64, Init(capacity, cells), es);
            && (s.cons.CAtHead? ==> (Step(TWO64, s, CLoadHead).cons.CIdle? <==> |s.claims| == |s.popped|))
            && (s.cons.CAtReady? ==>
                && |s.popped| < |s.claims|
                && (Step(TWO64, s, CLoadReady).cons.CIdle? <==>
                    Holding(ProducerOf(s, s.claims[|s.popped|].pid), Wrap(TWO64, |s.popped|))))
  {
    var u := Reach(capacity, cells, es);
    EmptyAtHead(u);
    if u.cons.CAtReady? { UnpublishedAtReady(u); }
  }

  /** How a pop ends, in every interleaving: empty at its load of `head`, unpublished at its load of the
      ready flag, or with the oldest claimed value. */
  lemma {:induction false} HowPopEnds<T>(capacity: nat, cells: seq<Cell<T>>, es: seq<Event<T>>, e: Event<T>)
    requires Creatable(capacity, cells) && Sound(Init(capacity, cells), es)
    ensures var s := Run(TWO64, Init(capacity, cells), es);
            var t, i := Step(TWO64, s, e), |s.popped|;
            !s.cons.CIdle? ==>
              || (!t.cons.CIdle? && t.popped == s.popped)
              || (e == CLoadHead && s.cons.CAtHead? && t.popped == s.popped && |s.claims| == i)
              || (&& e == CLoadReady && s.cons.CAtReady? && t.popped == s.popped && i < |s.claims|
                  && Holding(ProducerOf(s, s.claims[i].pid), Wrap(TWO64, i)))
              || (e == StoreTail && i < |s.claims| && t.popped == s.popped + [s.claims[i].value])
  {
    var u := Reach(capacity, cells, es);
    FailedPop(capacity, cells, es);
    if !u.cons.CIdle? { PopStep(TWO64, WrapState(u), e); }
  }

  lemma {:induction false} PopStep<T>(w: nat, s: State<T>, e: Event<T>)
    requires !s.cons.CIdle?
    ensures var t := Step(w, s, e);
            || (!t.cons.CIdle? && t.popped == s.popped)
            || (t.cons.CIdle? && e == CLoadHead && s.cons.CAtHead? && t.popped == s.popped)
            || (t.cons.CIdle? && e == CLoadReady && s.cons.CAtReady? && t.popped == s.popped)
            || (e == StoreTail && s.cons.CAtStore? && t.popped == s.popped + [s.cons.x])
  {
  }

  lemma {:induction false} EmptyAtHead<T>(u: State<T>)
    requires Inv(u)
    ensures u.cons.CAtHead? ==>
              (Step(TWO64, WrapState(u), CLoadHead).cons.CIdle? <==> |u.claims| == |u.popped|)
  {
    WrapConsumerCounterHead(u);
    if u.cons.CAtHead? { WrapEqual(TWO64, u.q.head, u.q.tail); }
  }

  lemma {:induction false} WrapConsumerCounterHead<T>(u: State<T>)
    ensures u.cons.CAtHead? ==>
              (Step(TWO64, WrapState(u), CLoadHead).cons.CIdle? <==> Same(u.q.head, u.cons.tail))
  {
    if u.cons.CAtHead? { WrapTests(u.q.capacity, u.q.head, u.cons.tail); }
  }

  lemma {:induction false} UnpublishedAtReady<T>(u: State<T>)
    requires Inv(u) && FindsCells(u) && u.cons.CAtReady?
    ensures var s, i := WrapState(u), |u.popped|;
            && i < |u.claims|
            && (Step(TWO64, s, CLoadReady).cons.CIdle? <==> Holding(ProducerOf(s, s.claims[i].pid), Wrap(TWO64, i)))
  {
    ReadyIdeal(u, |u.popped|);
    ReadyWraps(u, |u.popped|);
  }

  // ---- progress ----

  predicate Retrying<T>(pr: Producer<T>) {
    pr.AtTail? || pr.AtSwap?
  }

  /** The call's `head` is what the counter was after `c` claims, and every lost swap moved it on. */
  ghost predicate LoadedAt<T>(w: nat, s: State<T>, pr: Producer<T>, c: nat)
    requires Retrying(pr)
  {
    pr.since + pr.lost <= c <= |s.claims| && pr.head == Wrap(w, c)
  }

  ghost predicate ProgressInv<T>(w: nat, s: State<T>) {
    && s.q.head == Wrap(w, |s.claims|)
    && forall p: nat :: Retrying(ProducerOf(s, p)) ==> exists c: nat :: LoadedAt(w, s, ProducerOf(s, p), c)
  }

  lemma {:induction false} ProgressStep<T>(s: State<T>, e: Event<T>)
    requires ProgressInv(TWO64, s)
    ensures ProgressInv(TWO64, Step(TWO64, s, e))
  {
    var s' := Step(TWO64, s, e);
    WrapAdvance(TWO64, |s.claims|, 1);
    forall p: nat | Retrying(ProducerOf(s', p)) ensures exists c: nat :: LoadedAt(TWO64, s', ProducerOf(s', p), c) {
      if ProducerOf(s', p) != ProducerOf(s, p) && !e.LoadTail? {
        if Retrying(ProducerOf(s, p)) {
          var c: nat :| LoadedAt(TWO64, s, ProducerOf(s, p), c);
        }
        assert LoadedAt(TWO64, s', ProducerOf(s', p), |s'.claims|);
      } else {
        var c: nat :| LoadedAt(TWO64, s, ProducerOf(s, p), c);
        assert LoadedAt(TWO64, s', ProducerOf(s', p), c);
      }
    }
  }

  lemma {:induction false} ProgressRun<T>(s: State<T>, es: seq<Event<T>>)
    requires ProgressInv(TWO64, s)
    ensures ProgressInv(TWO64, Run(TWO64, s, es))
    decreases |es|
  {
    if es == [] {
    } else {
      ProgressRun(s, es[..|es| - 1]);
      ProgressStep(Run(TWO64, s, es[..|es| - 1]), es[|es| - 1]);
    }
  }

  /** Lock-freedom: in every run whatsoever, a push loses no more swaps than claims were made during
      the call. */
  lemma {:induction false} ProgressBound<T>(capacity: nat, cells: seq<Cell<T>>, es: seq<Event<T>>, p: nat)
    ensures var s := Run(TWO64, Init(capacity, cells), es);
            Retrying(ProducerOf(s, p)) ==>
              ProducerOf(s, p).since + ProducerOf(s, p).lost <= |s.claims|
  {
    ProgressRun(Init(capacity, cells), es);
    var s := Run(TWO64, Init(capacity, cells), es);
    if Retrying(ProducerOf(s, p)) {
      var c: nat :| LoadedAt(TWO64, s, ProducerOf(s, p), c);
    }
  }

  /** How many swaps that do not fail spuriously `p` has made in the run. */
  function Tries<T>(w: nat, s: State<T>, es: seq<Event<T>>, p: nat): nat
    decreases |es|
  {
    if es == [] then 0 else
    var before := es[..|es| - 1];
    Tries(w, s, before, p)
      + if ProducerOf(Run(w, s, before), p).AtSwap? && es[|es| - 1] == Swap(p, false) then 1 else 0
  }

  ghost predicate NoNewCall<T>(es: seq<Event<T>>, p: nat) {
    forall e :: e in es && e.LoadHead? ==> e.p != p
  }

  /** While the call goes on, every such swap was lost. */
  lemma {:induction false} TriesAreLost<T>(w: nat, s: State<T>, es: seq<Event<T>>, p: nat)
    requires NoNewCall(es, p)
    ensures var pr, pr' := ProducerOf(s, p), ProducerOf(Run(w, s, es), p);
            Retrying(pr') ==> Retrying(pr) && pr'.since == pr.since && pr'.lost >= pr.lost + Tries(w, s, es, p)
    decreases |es|
  {
    if es == [] {
    } else {
      var before, e := es[..|es| - 1], es[|es| - 1];
      TriesAreLost(w, s, before, p);
      assert e in es;
      RetryStep(w, Run(w, s, before), e, p);
    }
  }

  lemma {:induction false} RetryStep<T>(w: nat, s: State<T>, e: Event<T>, p: nat)
    requires e.LoadHead? ==> e.p != p
    ensures var pr, pr' := ProducerOf(s, p), ProducerOf(Step(w, s, e), p);
            var tried := if pr.AtSwap? && e == Swap(p, false) then 1 else 0;
            Retrying(pr') ==> Retrying(pr) && pr'.since == pr.since && pr'.lost >= pr.lost + tried
  {
  }

  /** Termination: in every run, a push that has made more swaps than tickets were claimed since it
      began, spurious failures apart, has left its loop. So with at most `n` claims by the others it
      makes at most `n + 1` of them. */
  lemma {:induction false} PushLeavesLoop<T>(capacity: nat, cells: seq<Cell<T>>, es: seq<Event<T>>,
                                             rest: seq<Event<T>>, p: nat, value: T)
    requires ProducerOf(Run(TWO64, Init(capacity, cells), es), p).Idle? && NoNewCall(rest, p)
    ensures var s := Run(TWO64, Init(capacity, cells), es + [LoadHead(p, value)]);
            var t := Run(TWO64, s, rest);
            Tries(TWO64, s, rest, p) > |t.claims| - |s.claims| ==> !Retrying(ProducerOf(t, p))
  {
    var s0, begin := Init(capacity, cells), es + [LoadHead(p, value)];
    assert begin[..|es|] == es;
    var s := Run(TWO64, s0, begin);
    assert ProducerOf(s, p) == AtTail(value, s.q.head, |s.claims|, 0);
    TriesAreLost(TWO64, s, rest, p);
    RunAppend(TWO64, s0, begin, rest);
    ProgressBound(capacity, cells, begin + rest, p);
  }

  lemma {:induction false} RunSnoc<T>(w: nat, s: State<T>, es: seq<Event<T>>, e: Event<T>)
    ensures Run(w, s, es + [e]) == Step(w, Run(w, s, es), e)
  {
    assert (es + [e])[..|es|] == es;
  }

  function StepOf<T>(w: nat): (State<T>, Event<T>) -> State<T> {
    (s: State<T>, e: Event<T>) => Step(w, s, e)
  }

  lemma {:induction false} RunIsFold<T>(w: nat, s: State<T>, es: seq<Event<T>>)
    ensures Run(w, s, es) == Fold(StepOf(w), s, es)
    decreases |es|
  {
    if es == [] {
    } else {
      RunIsFold(w, s, es[..|es| - 1]);
    }
  }

  lemma {:induction false} RunAppend<T>(w: nat, s: State<T>, a: seq<Event<T>>, b: seq<Event<T>>)
    ensures Run(w, s, a + b) == Run(w, Run(w, s, a), b)
  {
    RunIsFold(w, s, a + b);
    RunIsFold(w, s, a);
    RunIsFold(w, Run(w, s, a), b);
    FoldAppend(StepOf(w), s, a, b);
  }

  // ---- size: `head` is loaded, other threads take some steps, then `tail` is loaded ----

  /** What a size seen between states `s` and `t` is: the difference of what had been claimed and what
      had been popped, in 64 bits, never above the capacity, and not below zero unless something was
      popped in between. */
  ghost predicate SizeFits<T>(s: State<T>, t: State<T>, capacity: nat) {
    var d := |s.claims| - |t.popped|;
    && Distance(TWO64, s.q.head, t.q.tail) == d % TWO64
    && d <= capacity
    && (t.popped == s.popped ==> 0 <= d == d % TWO64)
  }

  lemma {:induction false} SizeFitsWrapped<T>(u: State<T>, v: State<T>)
    requires Inv(u) && Inv(v) && u.q.capacity == v.q.capacity && |u.popped| <= |v.popped|
    ensures SizeFits(WrapState(u), WrapState(v), u.q.capacity)
  {
    WrapDifference(TWO64, u.q.head, v.q.tail);
  }

  /** In every interleaving the size fits; the consumer itself sees it within `[0, capacity]`. */
  lemma {:induction false} SizeSnapshot<T>(capacity: nat, cells: seq<Cell<T>>, es: seq<Event<T>>,
                                           between: seq<Event<T>>)
    requires Creatable(capacity, cells) && Sound(Init(capacity, cells), es + between)
    ensures var s := Run(TWO64, Init(capacity, cells), es);
            SizeFits(s, Run(TWO64, s, between), capacity)
  {
    var s0 := Init(capacity, cells);
    SoundPrefix(s0, es, between);
    RunAppend(TWO64, s0, es, between);
    RunAppend(0, s0, es, between);
    var u := Reach(capacity, cells, es);
    var v := Reach(capacity, cells, es + between);
    PoppedGrows(0, u, between);
    SizeFitsWrapped(u, v);
  }

  lemma {:induction false} SoundPrefix<T>(s: State<T>, a: seq<Event<T>>, b: seq<Event<T>>)
    requires Sound(s, a + b)
    ensures Sound(s, a)
    decreases |b|
  {
    if b == [] {
      assert a + b == a;
    } else {
      SoundBefore(s, a + b);
      assert (a + b)[..|a + b| - 1] == a + b[..|b| - 1];
      SoundPrefix(s, a, b[..|b| - 1]);
    }
  }

  lemma {:induction false} PoppedGrows<T>(w: nat, s: State<T>, es: seq<Event<T>>)
    ensures |s.popped| <= |Run(w, s, es).popped|
    decreases |es|
  {
    if es == [] {
    } else {
      PoppedGrows(w, s, es[..|es| - 1]);
    }
  }
}
