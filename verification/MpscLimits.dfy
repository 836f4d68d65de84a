/** Where the queue's guarantees end: the run in which a swap comes a whole word too late, and the run
in which `idx % capacity` puts two producers on one cell. Both take about 2^64 pushes by producer 2. */
module MpscLimits {
  import opened Words
  import opened MpscMachine
  import opened MpscProperties
  import opened MpscCalls

  /** The consumer and producer 2 are between calls. */
  ghost predicate Steady<T>(s: State<T>) {
    Inv(s) && s.cons.CIdle? && ProducerOf(s, 2).Idle?
  }

  function Pushes<T>(b: T, k: nat): seq<Event<T>> {
    if k == 0 then [] else Pushes(b, k - 1) + PushEvents(2, b, 0)
  }

  /** A push and a pop, `k` times. */
  function Rounds<T>(b: T, junk: T, k: nat): seq<Event<T>> {
    if k == 0 then [] else Rounds(b, junk, k - 1) + (PushEvents(2, b, 0) + PopEvents(junk))
  }

  /** What such a run leaves: the counters moved on, everything new claimed by producer 2 for `b`, and
      everybody else where they were. */
  ghost predicate MovedOn<T>(s: State<T>, t: State<T>, b: T, pushed: nat, popped: nat) {
    && Steady(t) && t.q.capacity == s.q.capacity
    && t.q.head == s.q.head + pushed && t.q.tail == s.q.tail + popped
    && (forall p: nat :: p != 2 ==> ProducerOf(t, p) == ProducerOf(s, p))
    && s.claims <= t.claims
    && (forall i :: |s.claims| <= i < |t.claims| ==> t.claims[i] == Claim(2, b))
  }

  lemma {:induction false} MoveFurther<T>(s: State<T>, t: State<T>, u: State<T>, b: T, i: nat, j: nat, k: nat, l: nat)
    requires MovedOn(s, t, b, i, j) && MovedOn(t, u, b, k, l)
    ensures MovedOn(s, u, b, i + k, j + l)
  {
    forall c | |s.claims| <= c < |u.claims| ensures u.claims[c] == Claim(2, b) {
      if c < |t.claims| { assert u.claims[c] == t.claims[c]; }
    }
  }

  lemma {:induction false} ThenTimely<T>(s: State<T>, a: seq<Event<T>>, c: seq<Event<T>>)
    requires Timely(s, a) && Timely(Run(0, s, a), c)
    ensures Timely(s, a + c) && Run(0, s, a + c) == Run(0, Run(0, s, a), c)
  {
    TimelyAppend(s, a, c);
    RunAppend(0, s, a, c);
  }

  lemma {:induction false} PushOnce<T>(s: State<T>, b: T)
    requires Steady(s) && s.q.head - s.q.tail < s.q.capacity
    ensures Timely(s, PushEvents(2, b, 0))
    ensures MovedOn(s, Run(0, s, PushEvents(2, b, 0)), b, 1, 0)
  {
    PushTimely(s, 2, b, 0);
    RunInv(s, PushEvents(2, b, 0));
    PushRun(0, s, 2, b, 0);
    FullMeans(s.q.capacity, s.q.head, s.q.tail, s.q.head);
  }

  lemma {:induction false} PopOnce<T>(s: State<T>, b: T, junk: T)
    requires Steady(s) && s.q.tail < s.q.head && s.claims[s.q.tail].pid == 2
    ensures Timely(s, PopEvents(junk))
    ensures MovedOn(s, Run(0, s, PopEvents(junk)), b, 0, 1)
  {
    NoSwapTimely(s, PopEvents(junk));
    RunInv(s, PopEvents(junk));
    PopRun(0, s, junk);
    WrapEqual(TWO64, s.q.head, s.q.tail);
    assert TicketInv(s, s.q.tail);
  }

  lemma {:induction false} RunPushes<T>(s: State<T>, b: T, k: nat)
    requires Steady(s) && s.q.head + k <= s.q.tail + s.q.capacity
    ensures Timely(s, Pushes(b, k)) && MovedOn(s, Run(0, s, Pushes(b, k)), b, k, 0)
  {
    if k == 0 {
    } else {
      RunPushes(s, b, k - 1);
      var t := Run(0, s, Pushes(b, k - 1));
      PushOnce(t, b);
      ThenTimely(s, Pushes(b, k - 1), PushEvents(2, b, 0));
      MoveFurther(s, t, Run(0, t, PushEvents(2, b, 0)), b, k - 1, 0, 1, 0);
    }
  }

  lemma {:induction false} RunRound<T>(s: State<T>, b: T, junk: T)
    requires Steady(s) && s.q.head == s.q.tail && s.q.capacity > 0
    ensures Timely(s, PushEvents(2, b, 0) + PopEvents(junk))
    ensures MovedOn(s, Run(0, s, PushEvents(2, b, 0) + PopEvents(junk)), b, 1, 1)
  {
    PushOnce(s, b);
    var t := Run(0, s, PushEvents(2, b, 0));
    PopOnce(t, b, junk);
    ThenTimely(s, PushEvents(2, b, 0), PopEvents(junk));
    MoveFurther(s, t, Run(0, t, PopEvents(junk)), b, 1, 0, 0, 1);
  }

  lemma {:induction false} RunRounds<T>(s: State<T>, b: T, junk: T, k: nat)
    requires Steady(s) && s.q.head == s.q.tail && s.q.capacity > 0
    ensures Timely(s, Rounds(b, junk, k)) && MovedOn(s, Run(0, s, Rounds(b, junk, k)), b, k, k)
  {
    if k == 0 {
    } else {
      RunRounds(s, b, junk, k - 1);
      var before, round := Rounds(b, junk, k - 1), PushEvents(2, b, 0) + PopEvents(junk);
      var t := Run(0, s, before);
      RunRound(t, b, junk);
      ThenTimely(s, before, round);
      MoveFurther(s, t, Run(0, t, round), b, k - 1, k - 1, 1, 1);
    }
  }

  // ---- a swap that comes too late ----

  /** Producer 1 finds room and is held up before its swap, while `2^64 - n` values pass through the
      queue and `n` more fill it. */
  function HeldUpEvents<T>(n: nat, a: T, b: T, junk: T): seq<Event<T>>
    requires n < TWO64
  {
    [LoadHead(1, a), LoadTail(1)] + Rounds(b, junk, TWO64 - n) + Pushes(b, n)
  }

  lemma {:induction false} HeldUp<T>(n: nat, cells: seq<Cell<T>>, a: T, b: T, junk: T) returns (u: State<T>)
    requires Creatable(n, cells) && n > 0
    ensures u == Run(0, Init(n, cells), HeldUpEvents(n, a, b, junk))
    ensures Timely(Init(n, cells), HeldUpEvents(n, a, b, junk))
    ensures Inv(u) && u.cons.CIdle? && u.q.capacity == n && u.q.head == TWO64 && u.q.tail == TWO64 - n
    ensures ProducerOf(u, 1) == AtSwap(a, 0, 0, 0) && ProducerOf(u, 2).Idle?
    ensures u.claims[u.q.tail] == Claim(2, b)
  {
    var s0, start := Init(n, cells), [LoadHead(1, a), LoadTail(1)];
    InitInv(n, cells);
    PushHead(0, s0, 1, a);
    NoSwapTimely(s0, start);
    RunInv(s0, start);
    var s1 := Run(0, s0, start);
    RunRounds(s1, b, junk, TWO64 - n);
    var s2 := Run(0, s1, Rounds(b, junk, TWO64 - n));
    RunPushes(s2, b, n);
    u := Run(0, s2, Pushes(b, n));
    ThenTimely(s0, start, Rounds(b, junk, TWO64 - n));
    ThenTimely(s0, start + Rounds(b, junk, TWO64 - n), Pushes(b, n));
  }

  /** The overclaim: with any capacity that divides 2^64, producer 1's swap now succeeds on the full
      queue. One ticket more than there are cells is out, on a cell that holds a value nobody has
      popped; when producer 1 goes on, that value is lost and the consumer gets producer 1's for it. */
  lemma {:induction false} LateSwapOverclaims<T>(n: nat, cells: seq<Cell<T>>, a: T, b: T, junk: T)
    requires Creatable(n, cells) && n > 0 && Divides(n)
    ensures var s := Run(TWO64, Init(n, cells), HeldUpEvents(n, a, b, junk) + [Swap(1, false)]);
            var t := Run(TWO64, s, [Write(1), Publish(1)] + PopEvents(junk));
            && |s.claims| == |s.popped| + n + 1
            && ProducerOf(s, 1) == AtWrite(a, 0) && ReadyAt(s.q, 0)
            && |s.popped| < |t.claims| && t.popped == s.popped + [a] && t.claims[|s.popped|] == Claim(2, b)
  {
    var s0, es := Init(n, cells), HeldUpEvents(n, a, b, junk);
    var u := HeldUp(n, cells, a, b, junk);
    var s := LateSwap(n, a, b, u);
    RunSnoc(0, s0, es, Swap(1, false));
    assert WrapState(s0) == s0;
    WrapRun(s0, es + [Swap(1, false)]);
    LateWrite(s, n, a, junk);
  }

  /** The swap itself: 0 and 2^64 are the same `head`. */
  lemma {:induction false} LateSwap<T>(n: nat, a: T, b: T, u: State<T>) returns (s: State<T>)
    requires n > 0 && Divides(n)
    requires Inv(u) && u.cons.CIdle? && u.q.capacity == n && u.q.head == TWO64 && u.q.tail == TWO64 - n
    requires ProducerOf(u, 1) == AtSwap(a, 0, 0, 0) && ProducerOf(u, 2).Idle?
    requires u.claims[u.q.tail] == Claim(2, b)
    ensures s == WrapState(Step(0, u, Swap(1, false)))
    ensures s.q.capacity == n == |s.q.cells| && s.q.head == 1 && s.q.tail == TWO64 - n && s.cons.CIdle?
    ensures s.claims == u.claims + [Claim(1, a)] && s.popped == u.popped
    ensures ProducerOf(s, 1) == AtWrite(a, 0) && ReadyAt(s.q, 0)
  {
    s := WrapState(Step(0, u, Swap(1, false)));
    WrapSet(Step(0, u, Swap(1, false)), 1, Idle);
    assert TicketInv(u, u.q.tail);
    FirstCell(n);
  }

  /** Tickets 0 and `2^64 - n` use the first cell. */
  lemma {:induction false} FirstCell(n: nat)
    requires 0 < n < TWO64 && Divides(n)
    ensures (TWO64 - n) % n == 0 && n != TWO64 - 1
  {
    ModShift(TWO64, n, -1);
  }

  lemma {:induction false} LateWrite<T>(s: State<T>, n: nat, a: T, junk: T)
    requires 0 < n < TWO64 && Divides(n)
    requires s.q.capacity == n == |s.q.cells| && s.q.head == 1 && s.q.tail == TWO64 - n && s.cons.CIdle?
    requires ProducerOf(s, 1) == AtWrite(a, 0)
    ensures var t := Run(TWO64, s, [Write(1), Publish(1)] + PopEvents(junk));
            t.popped == s.popped + [a] && t.claims == s.claims
  {
    RunAppend(TWO64, s, [Write(1), Publish(1)], PopEvents(junk));
    RunTwo(TWO64, s, Write(1), Publish(1));
    FillCell(s, 1);
    var s' := Run(TWO64, s, [Write(1), Publish(1)]);
    FirstCell(n);
    assert s'.q.cells[0] == Cell(a, true);
    PopRun(TWO64, s', junk);
  }

  /** In a run that has claimed `b` tickets, nobody has been overtaken by more. */
  lemma {:induction false} OvertakenByAll<T>(s: State<T>, es: seq<Event<T>>, e: Event<T>, b: nat)
    requires Inv(s) && Timely(s, es) && |Run(0, s, es).claims| <= b
    ensures OvertakenByAtMost(s, es + [e], b)
    decreases |es|
  {
    assert (es + [e])[..|es|] == es;
    var u := Run(0, s, es);
    RunInv(s, es);
    forall p: nat | ProducerOf(u, p).AtSwap? ensures u.q.head - ProducerOf(u, p).head <= b {
      assert ProducerInv(u, p);
    }
    assert NoneFurtherBehind(u, b);
    if es == [] {
      assert OvertakenByAtMost(s, es, b);
    } else {
      var before, last := es[..|es| - 1], es[|es| - 1];
      StepClaims(0, Run(0, s, before), last);
      OvertakenByAll(s, before, last, b);
      assert before + [last] == es;
    }
  }

  lemma {:induction false} OvertakenByMore<T>(s: State<T>, es: seq<Event<T>>, a: nat, b: nat)
    requires OvertakenByAtMost(s, es, a) && a <= b
    ensures OvertakenByAtMost(s, es, b)
    decreases |es|
  {
    if es == [] {
    } else {
      OvertakenByMore(s, es[..|es| - 1], a, b);
    }
  }

  /** How long a push may be held up: with a capacity that divides 2^64, the claims stay within the
      capacity in all runs in which no push is overtaken by more than `b` claims before its swap, if
      and only if `b` is less than 2^64. */
  lemma {:induction false} WithinCapacityIffBelowWord<T>(n: nat, cells: seq<Cell<T>>, b: nat)
    requires Creatable(n, cells) && n > 0 && Divides(n)
    ensures (forall es :: OvertakenByAtMost(Init(n, cells), es, b) ==>
                            Outstanding(Run(TWO64, Init(n, cells), es)) <= n)
       <==> b < TWO64
  {
    var s0 := Init(n, cells);
    InitInv(n, cells);
    if b < TWO64 {
      forall es | OvertakenByAtMost(s0, es, b) ensures Outstanding(Run(TWO64, s0, es)) <= n {
        OvertakenByMore(s0, es, b, TWO64 - 1);
        DeliveryBelowWord(n, cells, es, 0);
      }
    } else {
      var x := cells[0].data;
      var es := HeldUpEvents(n, x, x, x);
      var u := HeldUp(n, cells, x, x, x);
      OvertakenByAll(s0, es, Swap(1, false), TWO64);
      OvertakenByMore(s0, es + [Swap(1, false)], TWO64, b);
      LateSwapOverclaims(n, cells, x, x, x);
      assert Outstanding(Run(TWO64, s0, es + [Swap(1, false)])) > n;
    }
  }

  // ---- two producers on one cell ----

  /** A push up to its swap. */
  function ClaimEvents<T>(p: nat, value: T): seq<Event<T>> {
    [LoadHead(p, value), LoadTail(p)] + [Swap(p, false)]
  }

  /** The state after it. */
  function Claimed<T>(s: State<T>, p: nat, value: T): State<T> {
    s.(q := s.q.(head := s.q.head + 1), claims := s.claims + [Claim(p, value)],
       prods := s.prods[p := AtWrite(value, s.q.head)])
  }

  lemma {:induction false} ClaimRun<T>(s: State<T>, p: nat, value: T)
    requires Inv(s) && ProducerOf(s, p).Idle? && s.q.head - s.q.tail < s.q.capacity
    ensures Timely(s, ClaimEvents(p, value))
    ensures Run(0, s, ClaimEvents(p, value)) == Claimed(s, p, value) && Inv(Claimed(s, p, value))
  {
    var loads := [LoadHead(p, value), LoadTail(p)];
    PushHead(0, s, p, value);
    FullMeans(s.q.capacity, s.q.head, s.q.tail, s.q.head);
    NoSwapTimely(s, loads);
    RunSnoc(0, s, loads, Swap(p, false));
    ClaimTicket(0, s, p, value);
    assert ClaimEvents(p, value)[..2] == loads;
    RunInv(s, ClaimEvents(p, value));
  }

  /** `2^64 - r` values pass through the queue, producer 1 claims the next ticket, `r - 1` more pushes. */
  function NearTheEnd<T>(r: nat, a: T, b: T, junk: T): seq<Event<T>>
    requires 0 < r < TWO64
  {
    Rounds(b, junk, TWO64 - r) + ClaimEvents(1, a) + Pushes(b, r - 1)
  }

  lemma {:induction false} AtTheEnd<T>(n: nat, cells: seq<Cell<T>>, r: nat, a: T, b: T, junk: T) returns (u: State<T>)
    requires Creatable(n, cells) && 0 < r < n
    ensures u == Run(0, Init(n, cells), NearTheEnd(r, a, b, junk))
    ensures Timely(Init(n, cells), NearTheEnd(r, a, b, junk))
    ensures Inv(u) && u.q.capacity == n && u.q.head == TWO64
    ensures ProducerOf(u, 1) == AtWrite(a, TWO64 - r) && ProducerOf(u, 3).Idle? && u.q.tail == TWO64 - r
  {
    var s0, rounds := Init(n, cells), Rounds(b, junk, TWO64 - r);
    InitInv(n, cells);
    RunRounds(s0, b, junk, TWO64 - r);
    var s1 := Run(0, s0, rounds);
    u := ClaimAndPush(s1, r, a, b);
    ThenTimely(s0, rounds, ClaimEvents(1, a));
    ThenTimely(s0, rounds + ClaimEvents(1, a), Pushes(b, r - 1));
  }

  lemma {:induction false} ClaimSteady<T>(s: State<T>, value: T)
    requires Steady(s) && ProducerOf(s, 1).Idle? && s.q.head - s.q.tail < s.q.capacity
    ensures Timely(s, ClaimEvents(1, value))
    ensures var t := Run(0, s, ClaimEvents(1, value));
            && Steady(t) && t.q.capacity == s.q.capacity && t.q.head == s.q.head + 1 && t.q.tail == s.q.tail
            && ProducerOf(t, 1) == AtWrite(value, s.q.head) && ProducerOf(t, 3) == ProducerOf(s, 3)
  {
    ClaimRun(s, 1, value);
  }

  lemma {:induction false} ClaimAndPush<T>(s: State<T>, r: nat, a: T, b: T) returns (u: State<T>)
    requires Steady(s) && s.q.head == s.q.tail && 0 < r < s.q.capacity
    requires ProducerOf(s, 1).Idle? && ProducerOf(s, 3).Idle?
    ensures u == Run(0, Run(0, s, ClaimEvents(1, a)), Pushes(b, r - 1))
    ensures Timely(s, ClaimEvents(1, a)) && Timely(Run(0, s, ClaimEvents(1, a)), Pushes(b, r - 1))
    ensures Inv(u) && u.q.capacity == s.q.capacity && u.q.head == s.q.head + r && u.q.tail == s.q.tail
    ensures ProducerOf(u, 1) == AtWrite(a, s.q.head) && ProducerOf(u, 3).Idle?
  {
    ClaimSteady(s, a);
    var t := Run(0, s, ClaimEvents(1, a));
    RunPushes(t, b, r - 1);
    u := Run(0, t, Pushes(b, r - 1));
  }

  function SharedCellEvents<T>(n: nat, a: T, b: T, c: T, junk: T): seq<Event<T>>
    requires 0 < n < TWO64 && TWO64 % n != 0
  {
    NearTheEnd(TWO64 % n, a, b, junk) + [LoadHead(3, c), LoadTail(3)] + [Swap(3, false)]
  }

  /** With any capacity that does not divide 2^64, the ticket after the wrap finds a cell that a
      producer still holds: producers 1 and 3 both write the first cell. */
  lemma {:induction false} ProducersShareCell<T>(n: nat, cells: seq<Cell<T>>, a: T, b: T, c: T, junk: T)
    requires Creatable(n, cells) && n > 0 && TWO64 % n != 0
    ensures Timely(Init(n, cells), SharedCellEvents(n, a, b, c, junk))
    ensures var s := Run(TWO64, Init(n, cells), SharedCellEvents(n, a, b, c, junk));
            && |s.claims| == TWO64 + 1
            && ProducerOf(s, 1) == AtWrite(a, TWO64 - TWO64 % n) && ProducerOf(s, 3) == AtWrite(c, 0)
            && Index(n, TWO64 - TWO64 % n) == Index(n, 0)
            && !Exclusive(s)
  {
    var s0, es := Init(n, cells), NearTheEnd(TWO64 % n, a, b, junk);
    var u := AtTheEnd(n, cells, TWO64 % n, a, b, junk);
    InitInv(n, cells);
    ClaimAtTheEnd(s0, es, u, c);
    assert WrapState(s0) == s0;
    SharedCell(n, u, a, c);
  }

  /** The claim that wraps `head`: up to the swap both machines agree, and the swap looks at no cell. */
  lemma {:induction false} ClaimAtTheEnd<T>(s: State<T>, es: seq<Event<T>>, u: State<T>, c: T)
    requires Inv(s) && Timely(s, es) && u == Run(0, s, es) && Inv(u) && |u.claims| <= TWO64
    requires ProducerOf(u, 3).Idle? && u.q.head - u.q.tail < u.q.capacity
    ensures var all := es + [LoadHead(3, c), LoadTail(3)] + [Swap(3, false)];
            Timely(s, all) && Run(TWO64, WrapState(s), all) == WrapState(Claimed(u, 3, c))
  {
    var loads := [LoadHead(3, c), LoadTail(3)];
    ClaimRun(u, 3, c);
    ThenTimely(s, es, ClaimEvents(3, c));
    assert es + ClaimEvents(3, c) == es + loads + [Swap(3, false)];
    NoSwapTimely(u, loads);
    ThenTimely(s, es, loads);
    PushHead(0, u, 3, c);
    LastStepWraps(s, es + loads, Swap(3, false));
  }

  lemma {:induction false} LastStepWraps<T>(s: State<T>, es: seq<Event<T>>, e: Event<T>)
    requires Inv(s) && Timely(s, es) && |Run(0, s, es).claims| <= TWO64
    ensures Run(TWO64, WrapState(s), es + [e]) == WrapState(Run(0, s, es + [e]))
  {
    SoundRun(s, es);
    WrapStep(Run(0, s, es), e);
    RunSnoc(0, s, es, e);
    RunSnoc(TWO64, WrapState(s), es, e);
  }

  lemma {:induction false} SharedCell<T>(n: nat, u: State<T>, a: T, c: T)
    requires 0 < n < TWO64 && TWO64 % n != 0 && |u.claims| == TWO64
    requires u.q.capacity == n && u.q.head == TWO64 && ProducerOf(u, 1) == AtWrite(a, TWO64 - TWO64 % n)
    ensures var s := WrapState(Claimed(u, 3, c));
            && |s.claims| == TWO64 + 1
            && ProducerOf(s, 1) == AtWrite(a, TWO64 - TWO64 % n) && ProducerOf(s, 3) == AtWrite(c, 0)
            && Index(n, TWO64 - TWO64 % n) == Index(n, 0)
            && !Exclusive(s)
  {
    var t := Claimed(u, 3, c);
    WrapSet(t, 1, Idle);
    WrapSet(t, 3, Idle);
    ModSmall(TWO64 - TWO64 % n, TWO64);
    DivModUnique(TWO64 - TWO64 % n, n, TWO64 / n, 0);
    DivModUnique(0, n, 0, 0);
    assert !DifferentCells(WrapState(t), ProducerOf(WrapState(t), 1), ProducerOf(WrapState(t), 3));
  }

  /** So producers are kept apart in all timely runs if and only if the capacity divides 2^64. */
  lemma {:induction false} ExclusiveIffDivides<T>(n: nat, cells: seq<Cell<T>>)
    requires Creatable(n, cells) && n > 0
    ensures (forall es :: Timely(Init(n, cells), es) ==> Exclusive(Run(TWO64, Init(n, cells), es)))
       <==> TWO64 % n == 0
  {
    if TWO64 % n == 0 {
      forall es | Timely(Init(n, cells), es) ensures Exclusive(Run(TWO64, Init(n, cells), es)) {
        SlotExclusivity(n, cells, es, 0);
      }
    } else {
      var x := cells[0].data;
      ProducersShareCell(n, cells, x, x, x, x);
    }
  }
}
