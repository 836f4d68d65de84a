/** `MpscQueue` of `mpmc_queue.hpp` as code that updates its cells and counters in place.

The calls here run one after another. `state` is the state of the interleaving machine, so each
call is seen to be one of its runs.
*/
module MpscQueue {
  import opened Words
  import opened MpscMachine
  import opened MpscProperties
  import opened MpscCalls

  /** The machine is between calls, and its 64-bit tickets find their cells. */
  ghost predicate Settled<T>(s: State<T>) {
    Inv(s) && Quiescent(s) && FindsCells(s)
  }

  lemma {:induction false} PushCallIsRun<T>(s: State<T>, p: nat, value: T, k: nat)
    requires Settled(s) && (Divides(s.q.capacity) || |s.claims| < TWO64)
    ensures var s' := Run(0, s, PushEvents(p, value, k));
            && Settled(s') && WrapState(s') == Run(TWO64, WrapState(s), PushEvents(p, value, k))
            && PushCall(TWO64, WrapQueue(s.q), value) == (WrapQueue(s'.q), |Contents(s)| < s.q.capacity)
            && Contents(s') == if |Contents(s)| < s.q.capacity then Contents(s) + [value] else Contents(s)
  {
    var es := PushEvents(p, value, k);
    QuiescentFacts(s);
    PushTimely(s, p, value, k);
    PushRun(0, s, p, value, k);
    PushRun(TWO64, WrapState(s), p, value, k);
    PushFifo(WrapState(s), p, value);
    SoundRun(s, es);
    StillQuiescent(0, s, p, value, value);
  }

  lemma {:induction false} PopCallIsRun<T>(s: State<T>, junk: T)
    requires Settled(s)
    ensures var s' := Run(0, s, PopEvents(junk));
            && Settled(s') && WrapState(s') == Run(TWO64, WrapState(s), PopEvents(junk))
            && PopCall(TWO64, WrapQueue(s.q), junk)
               == (WrapQueue(s'.q), if Contents(s) == [] then [] else [Contents(s)[0]])
            && Contents(s') == if Contents(s) == [] then [] else Contents(s)[1..]
  {
    QuiescentFacts(s);
    NoSwapTimely(s, PopEvents(junk));
    PopRun(0, s, junk);
    PopRun(TWO64, WrapState(s), junk);
    PopFifo(WrapState(s), junk);
    SoundRun(s, PopEvents(junk));
    StillQuiescent(0, s, 0, junk, junk);
  }

  class BoundedQueue<T> {
    const capacity: nat
    const items: array<Cell<T>>
    var head: nat
    var tail: nat
    ghost var state: State<T>

    ghost function View(): Queue<T>
      reads this, items
    {
      Queue(capacity, items[..], head, tail)
    }

    ghost predicate Valid()
      reads this, items
    {
      && items.Length == capacity
      && Settled(state)
      && View() == WrapQueue(state.q)
    }

    ghost function Contents(): seq<T>
      requires Valid()
      reads this, items
    {
      MpscCalls.Contents(state)
    }

    /** Every cell starts as a default value, not ready. */
    constructor (capacity: nat, default: T)
      requires capacity < TWO64
      ensures Valid() && fresh(items)
      ensures this.capacity == capacity && Contents() == [] && state.claims == []
    {
      this.capacity := capacity;
      items := new Cell<T>[capacity](i => Cell(default, false));
      head, tail := 0, 0;
      new;
      state := Init(capacity, items[..]);
      InitInv(capacity, items[..]);
    }

    /** `spurious` is how many times the weak compare-and-swap fails for no reason. */
    method Push(value: T, spurious: nat) returns (ok: bool)
      requires Valid()
      requires Divides(capacity) || |state.claims| < TWO64
      modifies this, items
      ensures Valid()
      ensures state == Run(0, old(state), PushEvents(0, value, spurious))
      ensures ok == (|old(Contents())| < capacity)
      ensures Contents() == if ok then old(Contents()) + [value] else old(Contents())
    {
      PushCallIsRun(state, 0, value, spurious);
      ok := ClaimAndWrite(value, spurious);
      state := Run(0, state, PushEvents(0, value, spurious));
    }

    method ClaimAndWrite(value: T, spurious: nat) returns (ok: bool)
      requires items.Length == capacity
      modifies this`head, items
      ensures (View(), ok) == PushCall(TWO64, old(View()), value)
    {
      var claimed, failures := head, spurious;
      while true
        invariant claimed == head == old(head) && items[..] == old(items[..])
        decreases failures
      {
        if Distance(TWO64, claimed, tail) >= capacity {
          return false;
        }
        if claimed == head && failures == 0 {
          head := Advance(TWO64, head, 1);
          break;
        }
        claimed, failures := head, failures - 1;
      }
      var cell := claimed % capacity;
      items[cell] := items[cell].(data := value);
      items[cell] := items[cell].(ready := true);
      assert items[..] == old(items[..])[cell := Cell(value, true)];
      return true;
    }

    /** A failed pop leaves the caller's value as it was; a successful one moves the value out and
        leaves `junk` in the cell. */
    method Pop(into: T, junk: T) returns (ok: bool, value: T)
      requires Valid()
      modifies this, items
      ensures Valid()
      ensures state == Run(0, old(state), PopEvents(junk))
      ensures ok == (old(Contents()) != [])
      ensures ok ==> value == old(Contents())[0] && Contents() == old(Contents())[1..]
      ensures !ok ==> value == into && Contents() == old(Contents())
    {
      PopCallIsRun(state, junk);
      ok, value := TakeOldest(into, junk);
      state := Run(0, state, PopEvents(junk));
    }

    method TakeOldest(into: T, junk: T) returns (ok: bool, value: T)
      requires items.Length == capacity && (capacity == 0 ==> head == tail)
      requires head < TWO64 && tail < TWO64
      modifies this`tail, items
      ensures (View(), if ok then [value] else []) == PopCall(TWO64, old(View()), junk)
      ensures !ok ==> value == into
    {
      ModSmall(head, TWO64);
      ModSmall(tail, TWO64);
      if head == tail {
        return false, into;
      }
      var cell := tail % capacity;
      if !items[cell].ready {
        return false, into;
      }
      value := items[cell].data;
      items[cell] := items[cell].(data := junk);
      items[cell] := items[cell].(ready := false);
      tail := Advance(TWO64, tail, 1);
      assert items[..] == old(items[..])[cell := Cell(junk, false)];
      return true, value;
    }

    method Size() returns (size: int)
      requires Valid()
      ensures size == |Contents()| && 0 <= size <= capacity
    {
      WrapDistance(TWO64, state.q.head, state.q.tail);
      size := Distance(TWO64, head, tail);
    }
  }
}
