/** The queue's calls when nobody interrupts them, each as a function on the queue and as a run from
its first load to its return, and the run in which a push fails on an empty queue. */
module MpscCalls {
  import opened Words
  import opened Runs
  import opened MpscMachine
  import opened MpscProperties

  // ---- one whole call ----

  /** What one `push` and one `pop` do to the queue. */
  function PushCall<T>(w: nat, q: Queue<T>, value: T): (Queue<T>, bool) {
    if Full(q.capacity, q.head, q.tail) then (q, false)
    else (PutCell(q, q.head, Cell(value, true)).(head := Advance(w, q.head, 1)), true)
  }

  function PopCall<T>(w: nat, q: Queue<T>, junk: T): (Queue<T>, seq<T>) {
    if Same(q.head, q.tail) || !ReadyAt(q, q.tail) then (q, [])
    else (PutCell(q, q.tail, Cell(junk, false)).(tail := Advance(w, q.tail, 1)),
          [q.cells[Index(q.capacity, q.tail)].data])
  }

  function Retries<T>(p: nat, k: nat): seq<Event<T>> {
    if k == 0 then [] else Retries(p, k - 1) + [Swap(p, true), LoadTail(p)]
  }

  /** One `push` by `p`, its swap failing spuriously `k` times. */
  function PushEvents<T>(p: nat, value: T, k: nat): seq<Event<T>> {
    [LoadHead(p, value), LoadTail(p)] + Retries(p, k) + [Swap(p, false), Write(p), Publish(p)]
  }

  function PopEvents<T>(junk: T): seq<Event<T>> {
    [CLoadTail, CLoadHead, CLoadReady, Take(junk), Clear, StoreTail]
  }

  lemma {:induction false} RunTwo<T>(w: nat, s: State<T>, a: Event<T>, b: Event<T>)
    ensures Run(w, s, [a, b]) == Step(w, Step(w, s, a), b)
  {
    RunSnoc(w, s, [], a);
    RunSnoc(w, s, [a], b);
    assert [] + [a] == [a] && [a] + [b] == [a, b];
  }

  lemma {:induction false} RunThree<T>(w: nat, s: State<T>, a: Event<T>, b: Event<T>, c: Event<T>)
    ensures Run(w, s, [a, b, c]) == Step(w, Step(w, Step(w, s, a), b), c)
  {
    RunTwo(w, s, a, b);
    RunSnoc(w, s, [a, b], c);
    assert [a, b] + [c] == [a, b, c];
  }

  lemma {:induction false} RunRetries<T>(w: nat, s: State<T>, p: nat, k: nat)
    requires match ProducerOf(s, p)
             case Idle => true
             case AtSwap(_, h, _, _) => h == s.q.head && !Full(s.q.capacity, h, s.q.tail)
             case _ => false
    ensures Run(w, s, Retries(p, k)) == s
  {
    if k == 0 {
    } else {
      RunRetries(w, s, p, k - 1);
      RunAppend(w, s, Retries(p, k - 1), [Swap(p, true), LoadTail(p)]);
      RunTwo(w, s, Swap(p, true), LoadTail(p));
      SpuriousRound(w, s, p);
    }
  }

  lemma {:induction false} SpuriousRound<T>(w: nat, s: State<T>, p: nat)
    requires match ProducerOf(s, p)
             case Idle => true
             case AtSwap(_, h, _, _) => h == s.q.head && !Full(s.q.capacity, h, s.q.tail)
             case _ => false
    ensures Step(w, Step(w, s, Swap(p, true)), LoadTail(p)) == s
  {
    match ProducerOf(s, p)
    case AtSwap(value, h, since, lost) =>
      var s1 := s.(prods := s.prods[p := AtTail(value, h, since, lost)]);
      assert Step(w, s, Swap(p, true)) == s1;
      assert Step(w, s1, LoadTail(p)) == s1.(prods := s1.prods[p := AtSwap(value, h, since, lost)]);
      assert s1.prods[p := ProducerOf(s, p)] == s.prods;
    case _ =>
  }

  /** The state after a whole `push` by `p`. */
  function AfterPush<T>(w: nat, s: State<T>, p: nat, value: T): State<T> {
    var (q, ok) := PushCall(w, s.q, value);
    if !ok then s.(prods := s.prods[p := Idle])
    else s.(q := q, prods := s.prods[p := Idle],
            claims := s.claims + [Claim(p, value)],
            returned := s.returned[p := ReturnedTo(s, p) + [value]])
  }

  lemma {:induction false} PushHead<T>(w: nat, s: State<T>, p: nat, value: T)
    requires ProducerOf(s, p).Idle?
    ensures Run(w, s, [LoadHead(p, value), LoadTail(p)])
         == s.(prods := s.prods[p := if Full(s.q.capacity, s.q.head, s.q.tail) then Idle
                                     else AtSwap(value, s.q.head, |s.claims|, 0)])
  {
    RunTwo(w, s, LoadHead(p, value), LoadTail(p));
    var pr := AtTail(value, s.q.head, |s.claims|, 0);
    var s1 := s.(prods := s.prods[p := pr]);
    assert StepLoadHead(s, p, value) == s1;
    var pr' := if Full(s.q.capacity, s.q.head, s.q.tail) then Idle else AtSwap(value, s.q.head, |s.claims|, 0);
    assert ProducerOf(s1, p) == pr;
    assert StepLoadTail(s1, p) == s1.(prods := s1.prods[p := pr']);
    Overwrite(s.prods, p, pr, pr');
  }

  lemma {:induction false} Overwrite<X>(m: map<nat, X>, p: nat, a: X, b: X)
    ensures m[p := a][p := b] == m[p := b]
  {
  }

  lemma {:induction false} IndexInRange(n: nat, i: int)
    requires n > 0
    ensures 0 <= Index(n, i) < n
  {
  }

  lemma {:induction false} ClaimTicket<T>(w: nat, s: State<T>, p: nat, value: T)
    ensures var s1 := s.(prods := s.prods[p := AtSwap(value, s.q.head, |s.claims|, 0)]);
            Step(w, s1, Swap(p, false))
              == s.(q := s.q.(head := Advance(w, s.q.head, 1)), claims := s.claims + [Claim(p, value)],
                    prods := s.prods[p := AtWrite(value, s.q.head)])
  {
    var pr := AtSwap(value, s.q.head, |s.claims|, 0);
    Overwrite(s.prods, p, pr, AtWrite(value, s.q.head));
    assert ProducerOf(s.(prods := s.prods[p := pr]), p) == pr;
  }

  lemma {:induction false} WriteCell<T>(s: State<T>, p: nat)
    requires |s.q.cells| == s.q.capacity > 0 && ProducerOf(s, p).AtWrite?
    ensures var pr := ProducerOf(s, p);
            var j := Index(s.q.capacity, pr.ticket);
            && 0 <= j < |s.q.cells|
            && StepWrite(s, p) == s.(q := s.q.(cells := s.q.cells[j := Cell(pr.value, s.q.cells[j].ready)]),
                                     prods := s.prods[p := AtPublish(pr.value, pr.ticket)])
  {
    IndexInRange(s.q.capacity, ProducerOf(s, p).ticket);
  }

  lemma {:induction false} PublishCell<T>(s: State<T>, p: nat)
    requires |s.q.cells| == s.q.capacity > 0 && ProducerOf(s, p).AtPublish?
    ensures var pr := ProducerOf(s, p);
            var j := Index(s.q.capacity, pr.ticket);
            && 0 <= j < |s.q.cells|
            && StepPublish(s, p) == s.(q := s.q.(cells := s.q.cells[j := Cell(s.q.cells[j].data, true)]),
                                       prods := s.prods[p := Idle],
                                       returned := s.returned[p := ReturnedTo(s, p) + [pr.value]])
  {
    IndexInRange(s.q.capacity, ProducerOf(s, p).ticket);
  }

  /** Writing the cell and setting its flag. */
  lemma {:induction false} FillCell<T>(s: State<T>, p: nat)
    requires |s.q.cells| == s.q.capacity > 0 && ProducerOf(s, p).AtWrite?
    ensures var pr := ProducerOf(s, p);
            StepPublish(StepWrite(s, p), p)
              == s.(q := PutCell(s.q, pr.ticket, Cell(pr.value, true)), prods := s.prods[p := Idle],
                    returned := s.returned[p := ReturnedTo(s, p) + [pr.value]])
  {
    var pr := ProducerOf(s, p);
    WriteCell(s, p);
    var s' := StepWrite(s, p);
    PublishCell(s', p);
    Overwrite(s.prods, p, AtPublish(pr.value, pr.ticket), Idle);
    var j := Index(s.q.capacity, pr.ticket);
    assert s'.q.cells[j := Cell(pr.value, true)] == s.q.cells[j := Cell(pr.value, true)];
  }

  lemma {:induction false} PushBody<T>(w: nat, s: State<T>, p: nat, value: T)
    requires |s.q.cells| == s.q.capacity > 0 && !Full(s.q.capacity, s.q.head, s.q.tail)
    ensures var s1 := s.(prods := s.prods[p := AtSwap(value, s.q.head, |s.claims|, 0)]);
            Run(w, s1, [Swap(p, false), Write(p), Publish(p)]) == AfterPush(w, s, p, value)
  {
    var s1 := s.(prods := s.prods[p := AtSwap(value, s.q.head, |s.claims|, 0)]);
    RunThree(w, s1, Swap(p, false), Write(p), Publish(p));
    ClaimTicket(w, s, p, value);
    var s2 := Step(w, s1, Swap(p, false));
    FillCell(s2, p);
    Overwrite(s.prods, p, AtWrite(value, s.q.head), Idle);
  }

  /** An uninterrupted push is the call on the queue, however often its swap fails spuriously. */
  lemma {:induction false} PushRun<T>(w: nat, s: State<T>, p: nat, value: T, k: nat)
    requires |s.q.cells| == s.q.capacity && ProducerOf(s, p).Idle?
    ensures Run(w, s, PushEvents(p, value, k)) == AfterPush(w, s, p, value)
  {
    var begin, finish := [LoadHead(p, value), LoadTail(p)], [Swap(p, false), Write(p), Publish(p)];
    PushHead(w, s, p, value);
    var s1 := Run(w, s, begin);
    RunRetries(w, s1, p, k);
    RunAppend(w, s, begin, Retries(p, k));
    RunAppend(w, s, begin + Retries(p, k), finish);
    if Full(s.q.capacity, s.q.head, s.q.tail) {
      RunThree(w, s1, Swap(p, false), Write(p), Publish(p));
    } else {
      PushBody(w, s, p, value);
    }
  }

  /** The state after a whole `pop`. */
  function AfterPop<T>(w: nat, s: State<T>, junk: T): State<T> {
    var (q, out) := PopCall(w, s.q, junk);
    s.(q := q, popped := s.popped + out)
  }

  lemma {:induction false} PopHead<T>(w: nat, s: State<T>)
    requires s.cons.CIdle?
    ensures Run(w, s, [CLoadTail, CLoadHead, CLoadReady])
         == if Same(s.q.head, s.q.tail) || !ReadyAt(s.q, s.q.tail) then s
            else s.(cons := CAtTake(s.q.tail))
  {
    RunThree(w, s, CLoadTail, CLoadHead, CLoadReady);
    var s1 := s.(cons := CAtHead(s.q.tail));
    assert Step(w, s, CLoadTail) == s1;
    var s2 := s.(cons := if Same(s.q.head, s.q.tail) then CIdle else CAtReady(s.q.tail));
    assert Step(w, s1, CLoadHead) == s2;
  }

  lemma {:induction false} PopBody<T>(w: nat, s: State<T>, junk: T)
    requires !Same(s.q.head, s.q.tail) && ReadyAt(s.q, s.q.tail) && s.cons == CAtTake(s.q.tail)
    ensures Run(w, s, [Take(junk), Clear, StoreTail]) == AfterPop(w, s, junk).(cons := CIdle)
  {
    RunThree(w, s, Take(junk), Clear, StoreTail);
    var j, x := Index(s.q.capacity, s.q.tail), s.q.cells[Index(s.q.capacity, s.q.tail)].data;
    var s1 := s.(q := s.q.(cells := s.q.cells[j := Cell(junk, true)]), cons := CAtClear(s.q.tail, x));
    assert Step(w, s, Take(junk)) == s1;
    var s2 := s.(q := s.q.(cells := s.q.cells[j := Cell(junk, false)]), cons := CAtStore(s.q.tail, x));
    assert s1.q.cells[j := Cell(junk, false)] == s2.q.cells;
    assert Step(w, s1, Clear) == s2;
  }

  /** An uninterrupted pop is the call on the queue. */
  lemma {:induction false} PopRun<T>(w: nat, s: State<T>, junk: T)
    requires s.cons.CIdle?
    ensures Run(w, s, PopEvents(junk)) == AfterPop(w, s, junk)
  {
    var begin: seq<Event<T>> := [CLoadTail, CLoadHead, CLoadReady];
    var finish: seq<Event<T>> := [Take(junk), Clear, StoreTail];
    PopHead(w, s);
    var s1 := Run(w, s, begin);
    RunAppend(w, s, begin, finish);
    assert PopEvents(junk) == begin + finish;
    if Same(s.q.head, s.q.tail) || !ReadyAt(s.q, s.q.tail) {
      RunThree(w, s1, Take(junk), Clear, StoreTail);
      assert s.popped + [] == s.popped;
    } else {
      PopBody(w, s1, junk);
    }
  }

  // ---- a push left alone ends ----

  /** One round of the retry loop by a push left alone: it ends if its load of `tail` looks full, claims
      if its `head` is current, and is back with the current `head` otherwise. */
  lemma {:induction false} RoundAlone<T>(w: nat, s: State<T>, p: nat)
    ensures var pr := ProducerOf(s, p);
            Run(w, s, [LoadTail(p), Swap(p, false)])
              == if !Retrying(pr) then s
                 else if pr.AtTail? && Full(s.q.capacity, pr.head, s.q.tail) then s.(prods := s.prods[p := Idle])
                 else if Same(pr.head, s.q.head) then TicketClaimed(w, s, p, pr.value)
                 else s.(prods := s.prods[p := AtTail(pr.value, s.q.head, pr.since, pr.lost + 1)])
  {
    RunTwo(w, s, LoadTail(p), Swap(p, false));
    match ProducerOf(s, p)
    case AtTail(value, head, since, lost) =>
      var next := if Full(s.q.capacity, head, s.q.tail) then Idle else AtSwap(value, head, since, lost);
      assert Step(w, s, LoadTail(p)) == s.(prods := s.prods[p := next]);
      Overwrite(s.prods, p, next, AtWrite(value, s.q.head));
      Overwrite(s.prods, p, next, AtTail(value, s.q.head, since, lost + 1));
    case _ =>
  }

  function TicketClaimed<T>(w: nat, s: State<T>, p: nat, value: T): State<T> {
    s.(q := s.q.(head := Advance(w, s.q.head, 1)), claims := s.claims + [Claim(p, value)],
       prods := s.prods[p := AtWrite(value, s.q.head)])
  }

  lemma {:induction false} FillAlone<T>(w: nat, s: State<T>, p: nat)
    requires !Retrying(ProducerOf(s, p)) && (InFlight(ProducerOf(s, p)) != [] ==> |s.q.cells| == s.q.capacity > 0)
    ensures var t := Run(w, s, [Write(p), Publish(p)]);
            && ProducerOf(t, p).Idle? && t.claims == s.claims && t.q.head == s.q.head
            && ReturnedTo(t, p) == ReturnedTo(s, p) + InFlight(ProducerOf(s, p))
  {
    RunTwo(w, s, Write(p), Publish(p));
    if ProducerOf(s, p).AtWrite? { FillCell(s, p); }
    if ProducerOf(s, p).AtPublish? { PublishCell(s, p); }
  }

  /** Two rounds of the loop, the write and the publication. */
  function PushAlone<T>(p: nat): seq<Event<T>> {
    [LoadTail(p), Swap(p, false)] + [LoadTail(p), Swap(p, false)] + [Write(p), Publish(p)]
  }

  lemma {:induction false} TwoRounds<T>(w: nat, s: State<T>, p: nat)
    requires Retrying(ProducerOf(s, p)) && |s.q.cells| == s.q.capacity
    ensures var pr, t := ProducerOf(s, p), Run(w, s, [LoadTail(p), Swap(p, false)] + [LoadTail(p), Swap(p, false)]);
            || (t == TicketClaimed(w, s, p, pr.value) && (pr.AtSwap? || !Full(s.q.capacity, pr.head, s.q.tail)))
            || (&& t == s.(prods := s.prods[p := Idle])
                && (Full(s.q.capacity, s.q.head, s.q.tail) || (pr.AtTail? && Full(s.q.capacity, pr.head, s.q.tail))))
  {
    var round: seq<Event<T>> := [LoadTail(p), Swap(p, false)];
    RunAppend(w, s, round, round);
    RoundAlone(w, s, p);
    var t := Run(w, s, round);
    RoundAlone(w, t, p);
    var pr := ProducerOf(s, p);
    var back := AtTail(pr.value, s.q.head, pr.since, pr.lost + 1);
    Overwrite(s.prods, p, back, Idle);
    Overwrite(s.prods, p, back, AtWrite(pr.value, s.q.head));
  }

  /** A push that is left alone returns, wherever in its call it is and however stale its `head`: with a
      ticket in hand it returns true; otherwise it claims the next one, writes and returns true, or
      returns false, and then the queue looks full from the current `head` or from the one it had. */
  lemma {:induction false} PushAloneEnds<T>(w: nat, s: State<T>, p: nat)
    requires |s.q.cells| == s.q.capacity
    requires s.q.capacity == 0 ==> ProducerOf(s, p).Idle? || ProducerOf(s, p).AtTail?
    ensures var pr, t := ProducerOf(s, p), Run(w, s, PushAlone(p));
            && ProducerOf(t, p).Idle?
            && (!Retrying(pr) ==> t.claims == s.claims && ReturnedTo(t, p) == ReturnedTo(s, p) + InFlight(pr))
            && (Retrying(pr) ==>
                || (t.claims == s.claims + [Claim(p, pr.value)] && ReturnedTo(t, p) == ReturnedTo(s, p) + [pr.value])
                || (&& t.claims == s.claims && ReturnedTo(t, p) == ReturnedTo(s, p)
                    && (|| Full(s.q.capacity, s.q.head, s.q.tail)
                        || (pr.AtTail? && Full(s.q.capacity, pr.head, s.q.tail)))))
  {
    var rounds: seq<Event<T>> := [LoadTail(p), Swap(p, false)] + [LoadTail(p), Swap(p, false)];
    RunAppend(w, s, rounds, [Write(p), Publish(p)]);
    if Retrying(ProducerOf(s, p)) {
      TwoRounds(w, s, p);
    } else {
      RunAppend(w, s, [LoadTail(p), Swap(p, false)], [LoadTail(p), Swap(p, false)]);
      RoundAlone(w, s, p);
    }
    FillAlone(w, Run(w, s, rounds), p);
  }

  // ---- uninterrupted calls are in time ----

  ghost predicate NoSwap<T>(es: seq<Event<T>>) {
    forall e :: e in es ==> !(e.Swap? && !e.spurious)
  }

  lemma {:induction false} NoSwapTimely<T>(s: State<T>, es: seq<Event<T>>)
    requires NoSwap(es)
    ensures Timely(s, es)
    decreases |es|
  {
    if es == [] {
    } else {
      assert es[|es| - 1] in es;
      NoSwapTimely(s, es[..|es| - 1]);
    }
  }

  function TooLateOf<T>(): (State<T>, Event<T>) -> bool {
    (s: State<T>, e: Event<T>) => TooLate(s, e)
  }

  lemma {:induction false} TimelyIsNever<T>(s: State<T>, es: seq<Event<T>>)
    ensures Timely(s, es) == Never(StepOf(0), TooLateOf(), s, es)
    decreases |es|
  {
    if es == [] {
    } else {
      TimelyIsNever(s, es[..|es| - 1]);
      RunIsFold(0, s, es[..|es| - 1]);
    }
  }

  lemma {:induction false} TimelyAppend<T>(s: State<T>, a: seq<Event<T>>, b: seq<Event<T>>)
    requires Timely(s, a) && Timely(Run(0, s, a), b)
    ensures Timely(s, a + b)
  {
    TimelyIsNever(s, a);
    TimelyIsNever(Run(0, s, a), b);
    TimelyIsNever(s, a + b);
    RunIsFold(0, s, a);
    NeverAppend(StepOf(0), TooLateOf(), s, a, b);
  }

  lemma {:induction false} RetriesNoSwap<T>(p: nat, k: nat)
    ensures NoSwap<T>(Retries(p, k))
  {
    if k == 0 {
    } else {
      RetriesNoSwap<T>(p, k - 1);
    }
  }

  lemma {:induction false} PushTimely<T>(s: State<T>, p: nat, value: T, k: nat)
    requires ProducerOf(s, p).Idle?
    ensures Timely(s, PushEvents(p, value, k))
  {
    var head, begin := [LoadHead(p, value), LoadTail(p)], [LoadHead(p, value), LoadTail(p)] + Retries(p, k);
    RetriesNoSwap<T>(p, k);
    NoSwapTimely(s, begin);
    PushHead(0, s, p, value);
    RunRetries(0, Run(0, s, head), p, k);
    RunAppend(0, s, head, Retries(p, k));
    var s1 := Run(0, s, begin);
    assert !TooLate(s1, Swap(p, false));
    TimelyAppend(s, begin, [Swap(p, false)]);
    NoSwapTimely(Run(0, s, begin + [Swap(p, false)]), [Write(p), Publish(p)]);
    TimelyAppend(s, begin + [Swap(p, false)], [Write(p), Publish(p)]);
    assert PushEvents(p, value, k) == begin + [Swap(p, false)] + [Write(p), Publish(p)];
  }

  // ---- between calls ----

  /** No call is under way. */
  ghost predicate Quiescent<T>(s: State<T>) {
    s.cons.CIdle? && forall p: nat :: ProducerOf(s, p).Idle?
  }

  /** What is in the queue. */
  ghost function Contents<T>(s: State<T>): seq<T>
    requires |s.popped| <= |s.claims|
  {
    Values(s.claims)[|s.popped|..]
  }

  lemma {:induction false} PushFifo<T>(s: State<T>, p: nat, value: T)
    requires |s.popped| <= |s.claims|
    requires Full(s.q.capacity, s.q.head, s.q.tail) <==> |Contents(s)| == s.q.capacity
    ensures var s' := AfterPush(TWO64, s, p, value);
            && |s'.popped| <= |s'.claims|
            && Contents(s') == (if |Contents(s)| != s.q.capacity then Contents(s) + [value] else Contents(s))
            && ReturnedTo(s', p) == ReturnedTo(s, p) + if |Contents(s)| != s.q.capacity then [value] else []
  {
    assert ReturnedTo(s, p) + [] == ReturnedTo(s, p);
    assert Values(s.claims + [Claim(p, value)]) == Values(s.claims) + [value];
  }

  /** The oldest cell is ready with `x`. */
  ghost predicate Offers<T>(q: Queue<T>, x: T) {
    ReadyAt(q, q.tail) && q.cells[Index(q.capacity, q.tail)].data == x
  }

  lemma {:induction false} PopFifo<T>(s: State<T>, junk: T)
    requires |s.popped| <= |s.claims| && |s.q.cells| == s.q.capacity
    requires Same(s.q.head, s.q.tail) <==> Contents(s) == []
    requires Contents(s) != [] ==> Offers(s.q, Contents(s)[0])
    ensures var s' := AfterPop(TWO64, s, junk);
            && |s'.popped| <= |s'.claims|
            && (Contents(s) == [] ==> s' == s)
            && (Contents(s) != [] ==> Contents(s') == Contents(s)[1..] && s'.popped == s.popped + [Contents(s)[0]])
  {
    assert s.popped + [] == s.popped;
  }

  /** Between calls the 64-bit registers and the oldest cell say what is in the queue. */
  lemma {:induction false} QuiescentFacts<T>(u: State<T>)
    requires Inv(u) && FindsCells(u) && Quiescent(u)
    ensures var s := WrapState(u);
            && |s.popped| <= |s.claims| && Quiescent(s) && |s.q.cells| == s.q.capacity
            && |Contents(s)| <= s.q.capacity
            && (Full(s.q.capacity, s.q.head, s.q.tail) <==> |Contents(s)| == s.q.capacity)
            && (Same(s.q.head, s.q.tail) <==> Contents(s) == [])
            && (Contents(s) != [] ==> Offers(s.q, Contents(s)[0]))
  {
    WrapTests(u.q.capacity, u.q.head, u.q.tail);
    FullMeans(u.q.capacity, u.q.head, u.q.tail, u.q.head);
    WrapEqual(TWO64, u.q.head, u.q.tail);
    forall p: nat ensures ProducerOf(WrapState(u), p).Idle? {
      WrapSet(u, p, Idle);
    }
    if u.q.tail < u.q.head {
      assert TicketInv(u, u.q.tail);
      WrapIndex(u.q.capacity, u.q.tail);
    }
  }

  lemma {:induction false} StillQuiescent<T>(w: nat, s: State<T>, p: nat, value: T, junk: T)
    requires Quiescent(s)
    ensures Quiescent(AfterPush(w, s, p, value)) && Quiescent(AfterPop(w, s, junk))
  {
    forall x: nat ensures ProducerOf(AfterPush(w, s, p, value), x).Idle? {
      assert ProducerOf(s, x).Idle?;
    }
    forall x: nat ensures ProducerOf(AfterPop(w, s, junk), x).Idle? {
      assert ProducerOf(s, x).Idle?;
    }
  }

  lemma {:induction false} QuiescentReach<T>(capacity: nat, cells: seq<Cell<T>>, es: seq<Event<T>>)
    returns (u: State<T>)
    requires Creatable(capacity, cells) && Sound(Init(capacity, cells), es)
    requires Quiescent(Run(TWO64, Init(capacity, cells), es))
    ensures Inv(u) && FindsCells(u) && Quiescent(u) && u.q.capacity == capacity
    ensures Run(TWO64, Init(capacity, cells), es) == WrapState(u)
  {
    u := Reach(capacity, cells, es);
    forall p: nat ensures ProducerOf(u, p).Idle? {
      assert ProducerOf(WrapState(u), p).Idle?;
      WrapSet(u, p, Idle);
    }
  }

  /** Between calls the queue is a bounded FIFO: a push is told true and appends unless it is full. */
  lemma {:induction false} QuiescentPush<T>(capacity: nat, cells: seq<Cell<T>>, es: seq<Event<T>>,
                                            p: nat, value: T, k: nat)
    requires Creatable(capacity, cells) && Sound(Init(capacity, cells), es)
    requires Quiescent(Run(TWO64, Init(capacity, cells), es))
    ensures var s := Run(TWO64, Init(capacity, cells), es);
            var s' := Run(TWO64, s, PushEvents(p, value, k));
            && |s.popped| <= |s.claims| && |s'.popped| <= |s'.claims| && Quiescent(s')
            && Contents(s') == (if |Contents(s)| < capacity then Contents(s) + [value] else Contents(s))
            && ReturnedTo(s', p) == ReturnedTo(s, p) + if |Contents(s)| < capacity then [value] else []
  {
    var u := QuiescentReach(capacity, cells, es);
    var s := WrapState(u);
    QuiescentFacts(u);
    PushRun(TWO64, s, p, value, k);
    PushFifo(s, p, value);
    StillQuiescent(TWO64, s, p, value, value);
  }

  /** ... and a pop removes the oldest value unless it is empty. */
  lemma {:induction false} QuiescentPop<T>(capacity: nat, cells: seq<Cell<T>>, es: seq<Event<T>>, junk: T)
    requires Creatable(capacity, cells) && Sound(Init(capacity, cells), es)
    requires Quiescent(Run(TWO64, Init(capacity, cells), es))
    ensures var s := Run(TWO64, Init(capacity, cells), es);
            var s' := Run(TWO64, s, PopEvents(junk));
            && |s.popped| <= |s.claims| && |s'.popped| <= |s'.claims| && Quiescent(s')
            && (Contents(s) == [] ==> s' == s)
            && (Contents(s) != [] ==> Contents(s') == Contents(s)[1..] && s'.popped == s.popped + [Contents(s)[0]])
  {
    var u := QuiescentReach(capacity, cells, es);
    var s := WrapState(u);
    QuiescentFacts(u);
    PopRun(TWO64, s, junk);
    PopFifo(s, junk);
    StillQuiescent(TWO64, s, 0, junk, junk);
  }

  /** Producer 1 loads `head`, producer 2 pushes, the consumer pops. */
  function StaleHeadEvents<T>(a: T, b: T, junk: T): seq<Event<T>> {
    [LoadHead(1, a)] + PushEvents(2, b, 0) + PopEvents(junk)
  }

  /** A push can fail on an empty queue: in the run above producer 1, now loading `tail`, takes the
      difference of -1 for a full queue. */
  lemma {:induction false} EmptyQueueRefusesPush<T>(a: T, b: T, junk: T)
    ensures var s := Run(TWO64, Init(1, [Cell(junk, false)]), StaleHeadEvents(a, b, junk));
            var t := Step(TWO64, s, LoadTail(1));
            && |s.claims| == |s.popped| && ProducerOf(s, 1).AtTail?
            && ProducerOf(t, 1).Idle? && ReturnedTo(t, 1) == []
  {
    var s0 := Init(1, [Cell(junk, false)]);
    RunSnoc(TWO64, s0, [], LoadHead(1, a));
    assert [] + [LoadHead(1, a)] == [LoadHead(1, a)];
    var s1 := s0.(prods := map[1 := AtTail(a, 0, 0, 0)]);
    assert Run(TWO64, s0, [LoadHead(1, a)]) == s1;
    RunAppend(TWO64, s0, [LoadHead(1, a)], PushEvents(2, b, 0));
    PushRun(TWO64, s1, 2, b, 0);
    var s2 := AfterPush(TWO64, s1, 2, b);
    RunAppend(TWO64, s0, [LoadHead(1, a)] + PushEvents(2, b, 0), PopEvents(junk));
    PopRun(TWO64, s2, junk);
  }
}
