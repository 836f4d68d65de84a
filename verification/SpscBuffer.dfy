/** `spsc_ring.c` as code that updates its struct in place.

Each call is proved to change the struct as the function of the same name in `SpscRing` does,
and to be that call on a bounded FIFO.
*/
module SpscBuffer {
  import opened Words
  import opened SpscRing

  class RingBuffer<T(0)> {
    const capacity: nat
    const mask: nat
    const elementSize: nat
    const buf: array<T>
    var head: nat
    var cachedTail: nat
    var tail: nat
    var cachedHead: nat

    /** The struct as a value. */
    ghost function View(): Ring<T>
      reads this, buf
    {
      Ring(capacity, buf[..], head, tail, cachedTail, cachedHead)
    }

    ghost predicate Valid()
      reads this, buf
    {
      && mask == capacity - 1
      && SpscRing.Valid(TWO64, View())
    }

    ghost function Contents(): seq<T>
      requires Valid()
      reads this, buf
    {
      SpscRing.Contents(TWO64, View())
    }

    /** `slots` is how many elements the allocated bytes hold. */
    constructor (capacity: nat, elementSize: nat, slots: nat)
      requires IsPow2(capacity) && 0 < capacity < TWO64
      ensures fresh(buf) && buf.Length == slots
      ensures this.capacity == capacity && this.elementSize == elementSize
      ensures head == tail == cachedTail == cachedHead == 0
      ensures Valid() <==> slots == capacity
      ensures Valid() ==> Contents() == []
    {
      this.capacity, this.mask, this.elementSize := capacity, capacity - 1, elementSize;
      buf := new T[slots];
      head, tail, cachedTail, cachedHead := 0, 0, 0, 0;
      new;
      ModSmall(0, TWO64);
    }

    method Push(x: T) returns (status: int)
      requires Valid()
      modifies this, buf
      ensures Valid()
      ensures View() == PushOnce(TWO64, old(View()), x).0
      ensures status == if |old(Contents())| < capacity then 0 else -1
      ensures Contents() == if status == 0 then old(Contents()) + [x] else old(Contents())
    {
      CallIsFifo(View(), Op.Push(x));
      ghost var r := View();
      if Distance(TWO64, head, cachedTail) >= capacity {
        cachedTail := tail;
        if Distance(TWO64, head, cachedTail) >= capacity {
          return -1;
        }
      }
      MaskedSlot(head);
      buf[BitAnd(head, mask)] := x;
      FillOne(r.capacity, r.buf, head, x);
      head := Advance(TWO64, head, 1);
      return 0;
    }

    /** A failed pop leaves the caller's element as it was. */
    method Pop(into: T) returns (status: int, x: T)
      requires Valid()
      modifies this
      ensures Valid()
      ensures View() == PopOnce(TWO64, old(View())).0
      ensures status == if old(Contents()) != [] then 0 else -1
      ensures status == 0 ==> x == old(Contents())[0] && Contents() == old(Contents())[1..]
      ensures status == -1 ==> x == into && Contents() == old(Contents())
    {
      ghost var r := View();
      PopContract(r);
      if tail == cachedHead {
        cachedHead := head;
        if tail == cachedHead {
          return -1, into;
        }
      }
      MaskedSlot(tail);
      x := buf[BitAnd(tail, mask)];
      tail := Advance(TWO64, tail, 1);
      PeekOne(capacity, r.buf, r.tail);
      assert View() == PopOnce(TWO64, r).0;
      return 0, x;
    }

    /** The batch copies at most twice: up to the end of the buffer, then from its start. */
    method PushN(e: array<T>, n: nat) returns (stored: nat)
      requires Valid()
      requires n <= e.Length && e != buf
      modifies this, buf
      ensures Valid()
      ensures (View(), stored) == PushBatch(TWO64, old(View()), old(e[..n]))
      ensures stored == Min(n, capacity - |old(Contents())|)
      ensures Contents() == old(Contents()) + old(e[..n])[..stored]
    {
      ghost var r, xs := View(), e[..n];
      PushNContract(r, xs);
      var n := n;
      var remaining := Distance(TWO64, capacity, Distance(TWO64, head, cachedTail));
      if remaining < n {
        cachedTail := tail;
        remaining := Distance(TWO64, capacity, Distance(TWO64, head, cachedTail));
        if remaining < n {
          n := remaining;
        }
      }
      if n == 0 {
        return 0;
      }
      MaskedSlot(head);
      CopyIn(BitAnd(head, mask), e, n, head);
      head := Advance(TWO64, head, n);
      assert PushBatch(TWO64, r, xs) == (View(), n) by { assert xs[..n] == e[..n]; }
      return n;
    }

    method CopyIn(idx: nat, e: array<T>, n: nat, ghost h: int)
      requires buf.Length == capacity > 0 && idx == h % capacity
      requires n <= capacity && n <= e.Length && e != buf
      modifies buf
      ensures buf[..] == Fill(capacity, old(buf[..]), h, e[..n])
    {
      ghost var was := buf[..];
      var first := capacity - idx;
      if first > n {
        first := n;
      }
      Copy(buf, idx, e, 0, first);
      ghost var mid := buf[..];
      if n > first {
        Copy(buf, 0, e, first, n - first);
      }
      assert buf[..] == e[..n][first..] + mid[n - first..];
      TwoPieceFill(capacity, was, h, e[..n], mid, buf[..], idx, first);
    }

    method PopN(e: array<T>, n: nat) returns (taken: nat)
      requires Valid()
      requires n <= e.Length && e != buf
      modifies this, e
      ensures Valid()
      ensures taken == Min(n, |old(Contents())|)
      ensures (View(), e[..taken]) == PopBatch(TWO64, old(View()), n)
      ensures e[..taken] == old(Contents())[..taken] && e[taken..] == old(e[taken..])
      ensures Contents() == old(Contents())[taken..]
    {
      ghost var r, want := View(), n;
      PopNContract(r, n);
      var n := n;
      var avail := Distance(TWO64, cachedHead, tail);
      if avail < n {
        cachedHead := head;
        avail := Distance(TWO64, cachedHead, tail);
        if avail < n {
          n := avail;
        }
      }
      if n == 0 {
        return 0;
      }
      MaskedSlot(tail);
      CopyOut(BitAnd(tail, mask), e, n, tail);
      tail := Advance(TWO64, tail, n);
      assert PopBatch(TWO64, r, want) == (View(), e[..n]);
      return n;
    }

    method CopyOut(idx: nat, e: array<T>, n: nat, ghost t: int)
      requires buf.Length == capacity > 0 && idx == t % capacity
      requires n <= capacity && n <= e.Length && e != buf
      modifies e
      ensures e[..n] == Peek(capacity, buf[..], t, n)
      ensures e[n..] == old(e[n..])
    {
      var first := capacity - idx;
      if first > n {
        first := n;
      }
      Copy(e, 0, buf, idx, first);
      if n > first {
        Copy(e, first, buf, 0, n - first);
      }
      TwoPiecePeek(capacity, buf[..], t, n, e[..n], idx, first);
    }

    /** Empty and full are told apart without wasting a slot. */
    method Query() returns (size: int, empty: bool, full: bool)
      requires Valid()
      ensures size == |Contents()|
      ensures empty <==> Contents() == []
      ensures full <==> |Contents()| == capacity
    {
      size := Distance(TWO64, head, tail);
      empty := size == 0;
      full := size == capacity;
    }

    lemma {:induction false} MaskedSlot(i: nat)
      requires Valid()
      ensures BitAnd(i, mask) == i % capacity && BitAnd(i, mask) < capacity
    {
      var k: nat :| capacity == Pow2(k);
      MaskIsMod(i, k);
    }
  }

  /** `spsc_ring_create`: a null result exactly when an argument is bad or memory has run out. The
      size of the buffer is computed in 64 bits and not tested, so the ring is usable exactly when
      `capacity * elem_size` does not overflow. */
  method Create<T(0)>(capacity: nat, elementSize: nat, memory: bool) returns (ring: RingBuffer?<T>)
    requires capacity < TWO64 && elementSize < TWO64
    ensures ring != null <==> IsPow2(capacity) && elementSize != 0 && memory
    ensures ring != null ==> fresh(ring) && fresh(ring.buf)
    ensures ring != null ==> ring.capacity == capacity && ring.elementSize == elementSize
    ensures ring != null ==> ring.buf.Length == (capacity * elementSize) % TWO64 / elementSize
    ensures ring != null ==> (ring.Valid() <==> capacity * elementSize < TWO64)
    ensures ring != null && ring.Valid() ==> ring.Contents() == []
  {
    if capacity == 0 {
      return null;
    }
    MaskTestIsPow2(capacity);
    if BitAnd(capacity, capacity - 1) != 0 || elementSize == 0 {
      return null;
    }
    if !memory {
      return null;
    }
    AllocatedSlots(capacity, elementSize);
    ring := new RingBuffer<T>(capacity, elementSize, (capacity * elementSize) % TWO64 / elementSize);
  }

  lemma {:induction false} AllocatedSlots(capacity: nat, elementSize: nat)
    requires 0 < elementSize
    ensures (capacity * elementSize) % TWO64 / elementSize == capacity <==> capacity * elementSize < TWO64
  {
    var bytes := capacity * elementSize;
    var got := bytes % TWO64;
    assert got == elementSize * (got / elementSize) + got % elementSize;
    if bytes < TWO64 {
      ModSmall(bytes, TWO64);
      DivModUnique(bytes, elementSize, capacity, 0);
    }
  }

  /** The allocation, `capacity * elem_size` in 64-bit arithmetic, holds the bytes of every slot
      exactly when the product does not overflow, which creation does not test. */
  lemma {:induction false} AllocationHoldsEverySlot(capacity: nat, elementSize: nat)
    requires IsPow2(capacity) && 0 < elementSize
    ensures (forall idx: nat :: SlotEnd(capacity, elementSize, idx) <= (capacity * elementSize) % TWO64)
       <==> capacity * elementSize < TWO64
  {
    var bytes := capacity * elementSize;
    if bytes < TWO64 {
      ModSmall(bytes, TWO64);
      forall idx: nat ensures SlotEnd(capacity, elementSize, idx) <= bytes % TWO64 {
        SlotEndBound(capacity, elementSize, idx);
      }
    } else {
      SlotEndBound(capacity, elementSize, capacity - 1);
    }
  }

  lemma {:induction false} SlotEndBound(capacity: nat, elementSize: nat, idx: nat)
    requires IsPow2(capacity)
    ensures SlotEnd(capacity, elementSize, idx) <= capacity * elementSize
    ensures idx == capacity - 1 ==> SlotEnd(capacity, elementSize, idx) == capacity * elementSize
  {
    var j := BitAnd(idx, capacity - 1);
    assert j == idx % capacity by {
      var k: nat :| capacity == Pow2(k);
      MaskIsMod(idx, k);
    }
    NextMultiple(j, elementSize);
    ProductOrder(j + 1, capacity, elementSize);
    if idx == capacity - 1 { ModSmall(idx, capacity); }
  }

  lemma {:induction false} NextMultiple(j: nat, size: nat)
    ensures j * size + size == (j + 1) * size
  {
  }

  lemma {:induction false} ProductOrder(a: nat, b: nat, c: nat)
    requires a <= b
    ensures a * c <= b * c
  {
    assert b * c == a * c + (b - a) * c;
  }

  /** One past the last byte of the slot of `idx`. */
  function SlotEnd(capacity: nat, elementSize: nat, idx: nat): int
    requires capacity > 0
  {
    BitAnd(idx, capacity - 1) * elementSize + elementSize
  }

  /** `memcpy` between two buffers. */
  method Copy<T>(dst: array<T>, d: nat, src: array<T>, s: nat, len: nat)
    requires d + len <= dst.Length && s + len <= src.Length && dst != src
    modifies dst
    ensures dst[..] == old(dst[..d]) + src[s..s + len] + old(dst[d + len..])
  {
    var i := 0;
    while i < len
      invariant i <= len
      invariant forall k :: 0 <= k < dst.Length ==>
                  dst[k] == if d <= k < d + i then src[s + k - d] else old(dst[k])
    {
      dst[d + i] := src[s + i];
      i := i + 1;
    }
  }

  // ---- steps of the proofs above ----

  lemma {:induction false} FillOne<T>(n: nat, buf: seq<T>, h: int, x: T)
    requires n == |buf| > 0
    ensures Fill(n, buf, h, [x]) == buf[h % n := x]
  {
    var a := Fill(n, buf, h, [x]);
    forall j | 0 <= j < n ensures a[j] == buf[h % n := x][j] {
      OffsetOfSlot(h, 0, j, n);
    }
  }

  lemma {:induction false} PeekOne<T>(n: nat, buf: seq<T>, t: int)
    requires n == |buf| > 0
    ensures Peek(n, buf, t, 1) == [buf[t % n]]
  {
  }

  lemma {:induction false} PopContract<T>(r: Ring<T>)
    requires SpscRing.Valid(TWO64, r)
    ensures var (r', out) := PopOnce(TWO64, r); var q := SpscRing.Contents(TWO64, r);
            && SpscRing.Valid(TWO64, r')
            && (q == [] ==> out == [] && SpscRing.Contents(TWO64, r') == q)
            && (q != [] ==> out == [q[0]] && SpscRing.Contents(TWO64, r') == q[1..])
  {
    CallIsFifo(r, Op.Pop);
  }

  lemma {:induction false} PushNContract<T>(r: Ring<T>, xs: seq<T>)
    requires SpscRing.Valid(TWO64, r)
    ensures var (r', n) := PushBatch(TWO64, r, xs); var q := SpscRing.Contents(TWO64, r);
            && SpscRing.Valid(TWO64, r') && n == Min(|xs|, r.capacity - |q|)
            && SpscRing.Contents(TWO64, r') == q + xs[..n]
  {
    CallIsFifo(r, Op.PushN(xs));
  }

  lemma {:induction false} PopNContract<T>(r: Ring<T>, n: nat)
    requires SpscRing.Valid(TWO64, r)
    ensures var (r', out) := PopBatch(TWO64, r, n); var q := SpscRing.Contents(TWO64, r);
            && SpscRing.Valid(TWO64, r') && |out| == Min(n, |q|)
            && out == q[..|out|] && SpscRing.Contents(TWO64, r') == q[|out|..]
  {
    CallIsFifo(r, Op.PopN(n));
  }

  /** The piece up to the end of the buffer and the piece at its start are one `Fill`. */
  lemma {:induction false} TwoPieceFill<T>(n: nat, buf: seq<T>, h: int, xs: seq<T>,
                         mid: seq<T>, res: seq<T>, idx: nat, first: nat)
    requires n == |buf| > 0 && |xs| <= n
    requires idx == h % n && first == Min(n - idx, |xs|)
    requires mid == buf[..idx] + xs[..first] + buf[idx + first..]
    requires res == xs[first..] + mid[|xs| - first..]
    ensures res == Fill(n, buf, h, xs)
  {
    var f := Fill(n, buf, h, xs);
    forall j | 0 <= j < n ensures res[j] == f[j] {
      SplitOffset(n, h, j);
    }
  }

  lemma {:induction false} TwoPiecePeek<T>(n: nat, buf: seq<T>, t: int, k: nat, res: seq<T>, idx: nat, first: nat)
    requires n == |buf| > 0 && k <= n
    requires idx == t % n && first == Min(n - idx, k)
    requires res == buf[idx..idx + first] + buf[..k - first]
    ensures res == Peek(n, buf, t, k)
  {
    var p := Peek(n, buf, t, k);
    forall i | 0 <= i < k ensures res[i] == p[i] {
      PieceSlot(n, t, k, i);
    }
  }

  /** The slot of the `i`-th element of a batch of `k`, in the first piece or the second. */
  lemma {:induction false} PieceSlot(n: nat, t: int, k: nat, i: nat)
    requires 0 < n && i < k <= n
    ensures var idx := t % n;
            var first := Min(n - idx, k);
            (t + i) % n == if i < first then idx + i else i - first
  {
    ModReduce(t, i, n);
    if i < n - t % n {
      ModSmall(t % n + i, n);
    } else {
      ModShift(t % n + i, n, -1);
      ModSmall(t % n + i - n, n);
    }
  }

  lemma {:induction false} SplitOffset(n: nat, h: int, j: int)
    requires 0 <= j < n
    ensures (j - h) % n == if j >= h % n then j - h % n else j - h % n + n
  {
    ModReduceNeg(j, h, n);
    if j >= h % n {
      ModSmall(j - h % n, n);
    } else {
      ModShift(j - h % n, n, 1);
      ModSmall(j - h % n + n, n);
    }
  }
}
