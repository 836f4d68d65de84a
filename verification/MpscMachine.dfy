/** The bounded multi-producer / single-consumer queue of `mpmc_queue.hpp`, with any number of
producer threads and its consumer interleaved one shared access at a time.

A producer claims a ticket by a compare-and-swap on `head`, writes the ticket's cell and sets its
ready flag. The consumer takes the oldest ticket's cell once it is ready, clears the flag and
advances `tail`. Nothing but these flags separates a slow producer from the next lap.

The step functions take the size of the counters: with `w == 2^64` they are the code's, with
`w == 0` they remember how often they have come round. The code's two tests, `full` and the
compare-and-swap, see 64-bit registers in both machines.
*/
module MpscMachine {
  import opened Words

  datatype Cell<T> = Cell(data: T, ready: bool)

  datatype Queue<T> = Queue(capacity: nat, cells: seq<Cell<T>>, head: int, tail: int)

  /** A successful compare-and-swap: which producer claimed the ticket, and for which value. */
  datatype Claim<T> = Claim(pid: nat, value: T)

  /** Where one `push` call stands. While it retries, `since` is the number of claims made before
      it loaded `head`, and `lost` counts the swaps it lost to other producers. */
  datatype Producer<T> =
    | Idle
    | AtTail(value: T, head: int, since: nat, lost: nat)
    | AtSwap(value: T, head: int, since: nat, lost: nat)
    | AtWrite(value: T, ticket: int)
    | AtPublish(value: T, ticket: int)

  /** Where the `pop` call stands. */
  datatype Consumer<T> =
    | CIdle
    | CAtHead(tail: int)
    | CAtReady(tail: int)
    | CAtTake(tail: int)
    | CAtClear(tail: int, x: T)
    | CAtStore(tail: int, x: T)

  /** `claims` in the order the swaps succeeded; `returned[p]` what producer `p` was told is in;
      `popped` what the consumer got. */
  datatype State<T> = State(
    q: Queue<T>,
    prods: map<nat, Producer<T>>,
    cons: Consumer<T>,
    claims: seq<Claim<T>>,
    returned: map<nat, seq<T>>,
    popped: seq<T>)

  /** `Swap` may fail spuriously; `Scribble` is a half-done write of the cell; a `Take` moves the
      value out and leaves `junk` behind. */
  datatype Event<T> =
    | LoadHead(p: nat, value: T) | LoadTail(p: nat) | Swap(p: nat, spurious: bool)
    | Scribble(p: nat, junk: T) | Write(p: nat) | Publish(p: nat)
    | CLoadTail | CLoadHead | CLoadReady | Take(junk: T) | Clear | StoreTail

  function ProducerOf<T>(s: State<T>, p: nat): Producer<T> {
    if p in s.prods then s.prods[p] else Idle
  }

  function ReturnedTo<T>(s: State<T>, p: nat): seq<T> {
    if p in s.returned then s.returned[p] else []
  }

  function Index(n: nat, i: int): int {
    if n == 0 then 0 else i % n
  }

  /** `head - tail >= capacity` in unsigned arithmetic: a `head` behind `tail` may look full too. */
  predicate Full(n: nat, head: int, tail: int) {
    Distance(TWO64, head, tail) >= n
  }

  /** The two counters look the same in 64 bits. */
  predicate Same(a: int, b: int) {
    Wrap(TWO64, a) == Wrap(TWO64, b)
  }

  function Init<T>(capacity: nat, cells: seq<Cell<T>>): State<T> {
    State(Queue(capacity, cells, 0, 0), map[], CIdle, [], map[], [])
  }

  // ---- the steps ----

  function Step<T>(w: nat, s: State<T>, e: Event<T>): State<T> {
    match e
    case LoadHead(p, value) => StepLoadHead(s, p, value)
    case LoadTail(p) => StepLoadTail(s, p)
    case Swap(p, spurious) => StepSwap(w, s, p, spurious)
    case Scribble(p, junk) => StepScribble(s, p, junk)
    case Write(p) => StepWrite(s, p)
    case Publish(p) => StepPublish(s, p)
    case _ => StepConsumer(w, s, e)
  }

  function StepLoadHead<T>(s: State<T>, p: nat, value: T): State<T> {
    if ProducerOf(s, p).Idle?
    then s.(prods := s.prods[p := AtTail(value, s.q.head, |s.claims|, 0)])
    else s
  }

  function StepLoadTail<T>(s: State<T>, p: nat): State<T> {
    match ProducerOf(s, p)
    case AtTail(value, head, since, lost) =>
      s.(prods := s.prods[p := if Full(s.q.capacity, head, s.q.tail) then Idle
                               else AtSwap(value, head, since, lost)])
    case _ => s
  }

  function StepSwap<T>(w: nat, s: State<T>, p: nat, spurious: bool): State<T> {
    match ProducerOf(s, p)
    case AtSwap(value, head, since, lost) =>
      if Same(head, s.q.head) && !spurious then
        s.(q := s.q.(head := Advance(w, s.q.head, 1)), claims := s.claims + [Claim(p, value)],
           prods := s.prods[p := AtWrite(value, s.q.head)])
      else
        s.(prods := s.prods[p := AtTail(value, s.q.head, since, if Same(head, s.q.head) then lost else lost + 1)])
    case _ => s
  }

  function PutCell<T>(q: Queue<T>, i: int, c: Cell<T>): Queue<T> {
    var j := Index(q.capacity, i);
    if 0 <= j < |q.cells| then q.(cells := q.cells[j := c]) else q
  }

  predicate ReadyAt<T>(q: Queue<T>, i: int) {
    var j := Index(q.capacity, i);
    0 <= j < |q.cells| && q.cells[j].ready
  }

  function StepScribble<T>(s: State<T>, p: nat, junk: T): State<T> {
    match ProducerOf(s, p)
    case AtWrite(value, ticket) => s.(q := PutCell(s.q, ticket, Cell(junk, ReadyAt(s.q, ticket))))
    case _ => s
  }

  function StepWrite<T>(s: State<T>, p: nat): State<T> {
    match ProducerOf(s, p)
    case AtWrite(value, ticket) =>
      s.(q := PutCell(s.q, ticket, Cell(value, ReadyAt(s.q, ticket))),
         prods := s.prods[p := AtPublish(value, ticket)])
    case _ => s
  }

  function StepPublish<T>(s: State<T>, p: nat): State<T> {
    match ProducerOf(s, p)
    case AtPublish(value, ticket) =>
      var j := Index(s.q.capacity, ticket);
      if !(0 <= j < |s.q.cells|) then s else
      s.(q := PutCell(s.q, ticket, s.q.cells[j].(ready := true)),
         prods := s.prods[p := Idle],
         returned := s.returned[p := ReturnedTo(s, p) + [value]])
    case _ => s
  }

  function StepConsumer<T>(w: nat, s: State<T>, e: Event<T>): State<T> {
    match (s.cons, e)
    case (CIdle, CLoadTail) => s.(cons := CAtHead(s.q.tail))
    case (CAtHead(tail), CLoadHead) => s.(cons := if Same(s.q.head, tail) then CIdle else CAtReady(tail))
    case (CAtReady(tail), CLoadReady) => s.(cons := if ReadyAt(s.q, tail) then CAtTake(tail) else CIdle)
    case (CAtTake(tail), Take(junk)) =>
      var j := Index(s.q.capacity, tail);
      if !(0 <= j < |s.q.cells|) then s else
      s.(q := PutCell(s.q, tail, s.q.cells[j].(data := junk)), cons := CAtClear(tail, s.q.cells[j].data))
    case (CAtClear(tail, x), Clear) =>
      var j := Index(s.q.capacity, tail);
      if !(0 <= j < |s.q.cells|) then s else
      s.(q := PutCell(s.q, tail, s.q.cells[j].(ready := false)), cons := CAtStore(tail, x))
    case (CAtStore(tail, x), StoreTail) =>
      s.(q := s.q.(tail := Advance(w, tail, 1)), cons := CIdle, popped := s.popped + [x])
    case _ => s
  }

  function Run<T>(w: nat, s: State<T>, es: seq<Event<T>>): State<T>
    decreases |es|
  {
    if es == [] then s else Step(w, Run(w, s, es[..|es| - 1]), es[|es| - 1])
  }

  // ---- swaps that come too late ----

  /** A swap comes too late if it succeeds on a full queue. Its call read `tail` when there was room,
      and 2^64 claims later, or a multiple, `head` looks the same again. */
  predicate TooLate<T>(s: State<T>, e: Event<T>) {
    e.Swap? && !e.spurious &&
    match ProducerOf(s, e.p)
    case AtSwap(_, head, _, _) =>
      Same(head, s.q.head) && head != s.q.head && s.q.head - s.q.tail >= s.q.capacity
    case _ => false
  }

  /** No swap of the run comes too late. */
  predicate Timely<T>(s: State<T>, es: seq<Event<T>>)
    decreases |es|
  {
    es == [] || (var before := es[..|es| - 1];
                 Timely(s, before) && !TooLate(Run(0, s, before), es[|es| - 1]))
  }

  // ---- what every step keeps, with counters that do not wrap ----

  function Values<T>(claims: seq<Claim<T>>): (vs: seq<T>)
    ensures |vs| == |claims|
  {
    seq(|claims|, i requires 0 <= i < |claims| => claims[i].value)
  }

  /** The values producer `p` claimed tickets for, in claim order. */
  function ClaimedBy<T>(claims: seq<Claim<T>>, p: nat): seq<T> {
    if claims == [] then [] else
    var last := claims[|claims| - 1];
    ClaimedBy(claims[..|claims| - 1], p) + if last.pid == p then [last.value] else []
  }

  ghost predicate Holding<T>(pr: Producer<T>, i: int) {
    (pr.AtWrite? || pr.AtPublish?) && pr.ticket == i
  }

  /** Ticket `i` has been claimed and not yet published. */
  ghost predicate Held<T>(s: State<T>, i: int)
    requires 0 <= i < |s.claims|
  {
    Holding(ProducerOf(s, s.claims[i].pid), i)
  }

  function CellAt<T>(q: Queue<T>, i: int): Cell<T>
    requires q.capacity == |q.cells| > 0
  {
    q.cells[i % q.capacity]
  }

  ghost predicate Inv<T>(s: State<T>) {
    && Counters(s)
    && s.popped == Values(s.claims[..s.q.tail])
    && (forall p: nat :: ProducerInv(s, p))
    && (forall i :: s.q.tail <= i < s.q.head ==> TicketInv(s, i))
    && (forall i :: s.q.head <= i < s.q.tail + s.q.capacity ==> !CellAt(s.q, i).ready)
    && ConsumerInv(s)
    && (forall p: nat :: ReturnedInv(s, p))
  }

  ghost predicate Counters<T>(s: State<T>) {
    && |s.q.cells| == s.q.capacity < TWO64
    && |s.claims| == s.q.head
    && 0 <= s.q.tail <= s.q.head <= s.q.tail + s.q.capacity
  }

  /** A retrying call never runs ahead of `head`, and every lost swap moved it on; a ticket in
      flight belongs to the producer that claimed it, with its cell not ready. */
  ghost predicate ProducerInv<T>(s: State<T>, p: nat)
    requires Counters(s)
  {
    match ProducerOf(s, p)
    case Idle => true
    case AtTail(_, head, since, lost) => since + lost <= head <= s.q.head
    case AtSwap(_, head, since, lost) =>
      since + lost <= head <= s.q.head && head < s.q.tail + s.q.capacity
    case AtWrite(value, ticket) =>
      && s.q.tail <= ticket < s.q.head && s.claims[ticket] == Claim(p, value)
      && !CellAt(s.q, ticket).ready
    case AtPublish(value, ticket) =>
      && s.q.tail <= ticket < s.q.head && s.claims[ticket] == Claim(p, value)
      && CellAt(s.q, ticket) == Cell(value, false)
  }

  /** A published ticket's cell is ready with the claimed value until the consumer empties it. */
  ghost predicate TicketInv<T>(s: State<T>, i: int)
    requires Counters(s) && s.q.tail <= i < s.q.head
  {
    !Held(s, i) ==>
      if i == s.q.tail && s.cons.CAtStore? then !CellAt(s.q, i).ready
      else if i == s.q.tail && s.cons.CAtClear? then CellAt(s.q, i).ready
      else CellAt(s.q, i) == Cell(s.claims[i].value, true)
  }

  ghost predicate ConsumerInv<T>(s: State<T>)
    requires Counters(s)
  {
    match s.cons
    case CIdle => true
    case CAtHead(tail) => tail == s.q.tail
    case CAtReady(tail) => tail == s.q.tail < s.q.head
    case CAtTake(tail) => tail == s.q.tail < s.q.head && !Held(s, tail)
    case CAtClear(tail, x) => tail == s.q.tail < s.q.head && !Held(s, tail) && x == s.claims[tail].value
    case CAtStore(tail, x) => tail == s.q.tail < s.q.head && !Held(s, tail) && x == s.claims[tail].value
  }

  /** What `p` claimed is what its calls returned true for, plus the call in flight. */
  ghost predicate ReturnedInv<T>(s: State<T>, p: nat) {
    ClaimedBy(s.claims, p) == ReturnedTo(s, p) + InFlight(ProducerOf(s, p))
  }

  function InFlight<T>(pr: Producer<T>): seq<T> {
    if pr.AtWrite? || pr.AtPublish? then [pr.value] else []
  }

  lemma {:induction false} InitInv<T>(capacity: nat, cells: seq<Cell<T>>)
    requires |cells| == capacity < TWO64 && forall c :: c in cells ==> !c.ready
    ensures Inv(Init(capacity, cells))
  {
  }

  /** A producer that holds no ticket moves to another place where it holds none. */
  lemma {:induction false} LocalMoveInv<T>(s: State<T>, p: nat, pr: Producer<T>)
    requires Inv(s)
    requires InFlight(ProducerOf(s, p)) == [] && InFlight(pr) == []
    requires ProducerInv(s.(prods := s.prods[p := pr]), p)
    ensures Inv(s.(prods := s.prods[p := pr]))
  {
    var s' := s.(prods := s.prods[p := pr]);
    forall x: nat ensures ProducerInv(s', x) && ReturnedInv(s', x) {
      assert ProducerInv(s, x) && ReturnedInv(s, x);
    }
    forall i | s.q.tail <= i < s.q.head ensures TicketInv(s', i) && Held(s', i) == Held(s, i) {
      assert TicketInv(s, i);
    }
  }

  lemma {:induction false} LoadHeadInv<T>(s: State<T>, p: nat, value: T)
    requires Inv(s)
    ensures Inv(StepLoadHead(s, p, value))
  {
    if ProducerOf(s, p).Idle? { LocalMoveInv(s, p, AtTail(value, s.q.head, |s.claims|, 0)); }
  }

  lemma {:induction false} LoadTailInv<T>(s: State<T>, p: nat)
    requires Inv(s)
    ensures Inv(StepLoadTail(s, p))
  {
    assert ProducerInv(s, p);
    match ProducerOf(s, p)
    case AtTail(value, head, since, lost) =>
      if s.q.tail <= head { ModSmall(head - s.q.tail, TWO64); }
      LocalMoveInv(s, p, if Full(s.q.capacity, head, s.q.tail) then Idle else AtSwap(value, head, since, lost));
    case _ =>
  }

  lemma {:induction false} SwapInv<T>(s: State<T>, p: nat, spurious: bool)
    requires Inv(s) && !TooLate(s, Swap(p, spurious))
    ensures Inv(StepSwap(0, s, p, spurious))
  {
    assert ProducerInv(s, p);
    match ProducerOf(s, p)
    case AtSwap(value, head, since, lost) =>
      if Same(head, s.q.head) && !spurious {
        ClaimInv(s, p);
      } else {
        LocalMoveInv(s, p, AtTail(value, s.q.head, since, if Same(head, s.q.head) then lost else lost + 1));
      }
    case _ =>
  }

  lemma {:induction false} ClaimInv<T>(s: State<T>, p: nat)
    requires Inv(s) && s.q.head < s.q.tail + s.q.capacity
    requires ProducerOf(s, p).AtSwap? && Same(ProducerOf(s, p).head, s.q.head)
    ensures Inv(StepSwap(0, s, p, false))
  {
    var s' := StepSwap(0, s, p, false);
    assert ProducerInv(s, p);
    assert !CellAt(s.q, s.q.head).ready;
    assert s'.claims[..s.q.tail] == s.claims[..s.q.tail];
    forall x: nat ensures ProducerInv(s', x) {
      assert ProducerInv(s, x);
    }
    forall x: nat ensures ReturnedInv(s', x) {
      assert ReturnedInv(s, x);
      assert s'.claims[..|s'.claims| - 1] == s.claims;
    }
    forall i | s.q.tail <= i < s'.q.head ensures TicketInv(s', i) && (i < s.q.head ==> Held(s', i) == Held(s, i)) {
      if i < s.q.head { assert TicketInv(s, i); }
    }
    forall i | s'.q.head <= i < s'.q.tail + s'.q.capacity ensures !CellAt(s'.q, i).ready {
      assert !CellAt(s.q, i).ready;
    }
  }

  // -- writing the cell of ticket `t`, which leaves the cells of the other tickets alone --

  lemma {:induction false} OtherCells<T>(s: State<T>, t: int, c: Cell<T>, i: int)
    requires Counters(s) && s.q.capacity > 0
    requires s.q.tail <= t < s.q.tail + s.q.capacity && s.q.tail <= i < s.q.tail + s.q.capacity
    ensures |PutCell(s.q, t, c).cells| == s.q.capacity
    ensures CellAt(PutCell(s.q, t, c), i) == if i == t then c else CellAt(s.q, i)
  {
    if i < t { SlotsDistinct(i, t, s.q.capacity); }
    if t < i { SlotsDistinct(t, i, s.q.capacity); }
  }

  lemma {:induction false} ProducerWriteInv<T>(s: State<T>, p: nat, c: Cell<T>, pr: Producer<T>)
    requires Inv(s)
    requires ProducerOf(s, p).AtWrite?
    requires !c.ready && (pr == ProducerOf(s, p)
             || (pr == AtPublish(ProducerOf(s, p).value, ProducerOf(s, p).ticket) && c.data == pr.value))
    ensures Inv(s.(q := PutCell(s.q, ProducerOf(s, p).ticket, c), prods := s.prods[p := pr]))
  {
    var t := ProducerOf(s, p).ticket;
    var s' := s.(q := PutCell(s.q, t, c), prods := s.prods[p := pr]);
    assert ProducerInv(s, p);
    OtherCells(s, t, c, t);
    forall x: nat ensures ReturnedInv(s', x) {
      assert ReturnedInv(s, x);
    }
    forall x: nat ensures ProducerInv(s', x) {
      assert ProducerInv(s, x);
      if InFlight(ProducerOf(s, x)) != [] { OtherCells(s, t, c, ProducerOf(s, x).ticket); }
    }
    forall i | s.q.tail <= i < s.q.head ensures TicketInv(s', i) && Held(s', i) == Held(s, i) {
      assert TicketInv(s, i);
      OtherCells(s, t, c, i);
    }
    forall i | s.q.head <= i < s.q.tail + s.q.capacity ensures !CellAt(s'.q, i).ready {
      OtherCells(s, t, c, i);
    }
  }

  lemma {:induction false} PublishInv<T>(s: State<T>, p: nat)
    requires Inv(s)
    ensures Inv(StepPublish(s, p))
  {
    assert ProducerInv(s, p);
    var s' := StepPublish(s, p);
    if ProducerOf(s, p).AtPublish? {
      var t := ProducerOf(s, p).ticket;
      var c := CellAt(s.q, t).(ready := true);
      OtherCells(s, t, c, t);
      assert s'.q == PutCell(s.q, t, c);
      forall x: nat ensures ReturnedInv(s', x) {
        assert ReturnedInv(s, x);
      }
      forall x: nat ensures ProducerInv(s', x) {
        assert ProducerInv(s, x);
        if InFlight(ProducerOf(s, x)) != [] { OtherCells(s, t, c, ProducerOf(s, x).ticket); }
      }
      forall i | s.q.tail <= i < s.q.head ensures TicketInv(s', i) && (i != t ==> Held(s', i) == Held(s, i)) {
        assert TicketInv(s, i);
        OtherCells(s, t, c, i);
      }
      forall i | s.q.head <= i < s.q.tail + s.q.capacity ensures !CellAt(s'.q, i).ready {
        OtherCells(s, t, c, i);
      }
    }
  }

  /** The consumer empties, then clears, the cell of the oldest ticket. */
  lemma {:induction false} ConsumerWriteInv<T>(s: State<T>, c: Cell<T>, cons: Consumer<T>)
    requires Inv(s)
    requires match s.cons
             case CAtTake(t) => c.ready && cons == CAtClear(t, s.claims[t].value)
             case CAtClear(t, x) => !c.ready && cons == CAtStore(t, x)
             case _ => false
    ensures Inv(s.(q := PutCell(s.q, s.q.tail, c), cons := cons))
  {
    var t := s.q.tail;
    var s' := s.(q := PutCell(s.q, t, c), cons := cons);
    OtherCells(s, t, c, t);
    forall x: nat ensures ReturnedInv(s', x) {
      assert ReturnedInv(s, x);
    }
    forall x: nat ensures ProducerInv(s', x) {
      assert ProducerInv(s, x);
      if InFlight(ProducerOf(s, x)) != [] { OtherCells(s, t, c, ProducerOf(s, x).ticket); }
    }
    forall i | s.q.tail <= i < s.q.head ensures TicketInv(s', i) && Held(s', i) == Held(s, i) {
      assert TicketInv(s, i);
      OtherCells(s, t, c, i);
    }
    forall i | s.q.head <= i < s.q.tail + s.q.capacity ensures !CellAt(s'.q, i).ready {
      OtherCells(s, t, c, i);
    }
  }

  lemma {:induction false} StoreTailInv<T>(s: State<T>)
    requires Inv(s) && s.cons.CAtStore?
    ensures Inv(StepConsumer(0, s, StoreTail))
  {
    var s' := StepConsumer(0, s, StoreTail);
    var t := s.q.tail;
    assert TicketInv(s, t);
    assert s.claims[..t + 1] == s.claims[..t] + [s.claims[t]];
    assert s'.popped == Values(s.claims[..t + 1]);
    forall x: nat ensures ProducerInv(s', x) && ReturnedInv(s', x) {
      assert ProducerInv(s, x) && ReturnedInv(s, x);
    }
    forall i | s'.q.tail <= i < s'.q.head ensures TicketInv(s', i) && Held(s', i) == Held(s, i) {
      assert TicketInv(s, i);
    }
    forall i | s'.q.head <= i < s'.q.tail + s'.q.capacity ensures !CellAt(s'.q, i).ready {
      assert CellAt(s'.q, i) == CellAt(s.q, i);
      if i == t + s.q.capacity { ModShift(t, s.q.capacity, 1); }
    }
  }

  /** A consumer step that only reads. */
  lemma {:induction false} ConsumerMoveInv<T>(s: State<T>, cons: Consumer<T>)
    requires Inv(s)
    requires !s.cons.CAtClear? && !s.cons.CAtStore? && !cons.CAtClear? && !cons.CAtStore?
    requires ConsumerInv(s.(cons := cons))
    ensures Inv(s.(cons := cons))
  {
    var s' := s.(cons := cons);
    forall x: nat ensures ProducerInv(s', x) && ReturnedInv(s', x) {
      assert ProducerInv(s, x) && ReturnedInv(s, x);
    }
    forall i | s.q.tail <= i < s.q.head ensures TicketInv(s', i) {
      assert TicketInv(s, i);
    }
  }

  lemma {:induction false} ConsumerStepInv<T>(s: State<T>, e: Event<T>)
    requires Inv(s)
    ensures Inv(StepConsumer(0, s, e))
  {
    match (s.cons, e)
    case (CIdle, CLoadTail) => ConsumerMoveInv(s, CAtHead(s.q.tail));
    case (CAtHead(tail), CLoadHead) =>
      WrapEqual(TWO64, s.q.head, tail);
      ConsumerMoveInv(s, if s.q.head == tail then CIdle else CAtReady(tail));
    case (CAtReady(tail), CLoadReady) =>
      assert TicketInv(s, tail) && ProducerInv(s, s.claims[tail].pid);
      ConsumerMoveInv(s, if ReadyAt(s.q, tail) then CAtTake(tail) else CIdle);
    case (CAtTake(tail), Take(junk)) =>
      assert TicketInv(s, tail);
      ConsumerWriteInv(s, CellAt(s.q, tail).(data := junk), CAtClear(tail, s.claims[tail].value));
    case (CAtClear(tail, x), Clear) =>
      ConsumerWriteInv(s, CellAt(s.q, tail).(ready := false), CAtStore(tail, x));
    case (CAtStore(tail, x), StoreTail) => StoreTailInv(s);
    case _ =>
  }

  /** Every step of every thread, except a swap that comes too late, keeps the invariant. */
  lemma {:induction false} StepInv<T>(s: State<T>, e: Event<T>)
    requires Inv(s) && !TooLate(s, e)
    ensures Inv(Step(0, s, e))
  {
    match e
    case LoadHead(p, value) => LoadHeadInv(s, p, value);
    case LoadTail(p) => LoadTailInv(s, p);
    case Swap(p, spurious) => SwapInv(s, p, spurious);
    case Scribble(p, junk) => WriteInv(s, p, junk);
    case Write(p) => if ProducerOf(s, p).AtWrite? { WriteInv(s, p, ProducerOf(s, p).value); }
    case Publish(p) => PublishInv(s, p);
    case _ => ConsumerStepInv(s, e);
  }

  lemma {:induction false} WriteInv<T>(s: State<T>, p: nat, junk: T)
    requires Inv(s)
    ensures Inv(StepScribble(s, p, junk)) && Inv(StepWrite(s, p))
  {
    var pr := ProducerOf(s, p);
    assert ProducerInv(s, p);
    if pr.AtWrite? {
      ProducerWriteInv(s, p, Cell(junk, false), pr);
      assert s.prods[p := pr] == s.prods;
      ProducerWriteInv(s, p, Cell(pr.value, false), AtPublish(pr.value, pr.ticket));
    }
  }

  lemma {:induction false} RunInv<T>(s: State<T>, es: seq<Event<T>>)
    requires Inv(s) && Timely(s, es)
    ensures Inv(Run(0, s, es))
    decreases |es|
  {
    if es == [] {
    } else {
      RunInv(s, es[..|es| - 1]);
      StepInv(Run(0, s, es[..|es| - 1]), es[|es| - 1]);
    }
  }
}

