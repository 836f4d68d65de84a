/** The single-producer / single-consumer ring of `spsc_ring.c`, one call at a time.

`Ring` is the struct: a buffer, the two published counters and the two cached peer counters.
The calls are given as functions on it, for a word size `w`; `SpscBuffer` has the C code with its
in-place updates, proved against those functions.
*/
module SpscRing {
  import opened Words

  datatype Ring<T> = Ring(
    capacity: nat,
    buf: seq<T>,
    head: int,
    tail: int,
    cachedTail: int,
    cachedHead: int)

  /** `cachedTail <= tail <= cachedHead <= head <= cachedTail + capacity`, said with unsigned
      differences so that it also makes sense after the counters have wrapped. */
  ghost predicate Valid<T>(w: nat, r: Ring<T>) {
    && (w == 0 || w == TWO64)
    && IsPow2(r.capacity) && 0 < r.capacity < TWO64
    && |r.buf| == r.capacity
    && Distance(w, r.head, r.tail) <= Distance(w, r.head, r.cachedTail) <= r.capacity
    && 0 <= Distance(w, r.cachedHead, r.tail) <= Distance(w, r.head, r.tail)
    && 0 <= r.cachedTail && 0 <= r.tail && 0 <= r.cachedHead && 0 <= r.head
    && (w != 0 ==> r.cachedTail < w && r.tail < w && r.cachedHead < w && r.head < w)
  }

  function Size<T>(w: nat, r: Ring<T>): int {
    Distance(w, r.head, r.tail)
  }

  /** The abstract queue, oldest element first. */
  ghost function Contents<T>(w: nat, r: Ring<T>): (q: seq<T>)
    requires Valid(w, r)
    ensures |q| == Size(w, r)
  {
    seq(Size(w, r), i requires 0 <= i < Size(w, r) => At(w, r, Advance(w, r.tail, i)))
  }

  /** The element counter `i` points at. */
  ghost function At<T>(w: nat, r: Ring<T>, i: int): T
    requires Valid(w, r)
  {
    SlotInRange(w, r.capacity, i);
    r.buf[Slot(w, r.capacity, i)]
  }

  // ---- the calls ----

  /** The buffer after copying `xs` in at counter `h`: exactly the slots `h, h + 1, ...` change. */
  function Fill<T>(n: nat, buf: seq<T>, h: int, xs: seq<T>): (b: seq<T>)
    requires n == |buf| > 0
    ensures |b| == n
  {
    seq(n, j requires 0 <= j < n =>
      var o := (j - h) % n; if o < |xs| then xs[o] else buf[j])
  }

  /** What the buffer holds from counter `t` on. */
  function Peek<T>(n: nat, buf: seq<T>, t: int, k: nat): (xs: seq<T>)
    requires n == |buf| > 0
    ensures |xs| == k
  {
    seq(k, i requires 0 <= i < k => buf[(t + i) % n])
  }

  /** Slots free as far as the producer knows: `capacity - (head - cached_tail)`. */
  function Free<T>(w: nat, r: Ring<T>): int {
    Distance(w, r.capacity, Distance(w, r.head, r.cachedTail))
  }

  /** Elements available as far as the consumer knows: `cached_head - tail`. */
  function Avail<T>(w: nat, r: Ring<T>): int {
    Distance(w, r.cachedHead, r.tail)
  }

  function PushOnce<T>(w: nat, r: Ring<T>, x: T): (Ring<T>, bool)
    requires |r.buf| == r.capacity > 0
  {
    var r1 := if Distance(w, r.head, r.cachedTail) >= r.capacity then r.(cachedTail := r.tail) else r;
    if Distance(w, r1.head, r1.cachedTail) >= r.capacity then (r1, false)
    else (r1.(buf := Fill(r.capacity, r.buf, r.head, [x]), head := Advance(w, r.head, 1)), true)
  }

  function PopOnce<T>(w: nat, r: Ring<T>): (Ring<T>, seq<T>)
    requires |r.buf| == r.capacity > 0
  {
    var r1 := if r.tail == r.cachedHead then r.(cachedHead := r.head) else r;
    if r1.tail == r1.cachedHead then (r1, [])
    else (r1.(tail := Advance(w, r.tail, 1)), Peek(r.capacity, r.buf, r.tail, 1))
  }

  function PushBatch<T>(w: nat, r: Ring<T>, xs: seq<T>): (res: (Ring<T>, nat))
    requires |r.buf| == r.capacity > 0
    ensures res.1 <= |xs|
  {
    var r1 := if Free(w, r) < |xs| then r.(cachedTail := r.tail) else r;
    var n := Min(|xs|, Free(w, r1));
    if n <= 0 then (r1, 0)
    else (r1.(buf := Fill(r.capacity, r.buf, r.head, xs[..n]), head := Advance(w, r.head, n)), n)
  }

  function PopBatch<T>(w: nat, r: Ring<T>, n: nat): (Ring<T>, seq<T>)
    requires |r.buf| == r.capacity > 0
  {
    var r1 := if Avail(w, r) < n then r.(cachedHead := r.head) else r;
    var k := Min(n, Avail(w, r1));
    if k <= 0 then (r1, [])
    else (r1.(tail := Advance(w, r.tail, k)), Peek(r.capacity, r.buf, r.tail, k))
  }

  // ---- wraparound: every call commutes with reducing the counters modulo 2^64 ----

  function WrapRing<T>(w: nat, r: Ring<T>): Ring<T> {
    r.(head := Wrap(w, r.head), tail := Wrap(w, r.tail),
       cachedTail := Wrap(w, r.cachedTail), cachedHead := Wrap(w, r.cachedHead))
  }

  lemma {:induction false} WrapRingFacts<T>(r: Ring<T>)
    requires Valid(0, r)
    ensures Valid(TWO64, WrapRing(TWO64, r))
    ensures Size(TWO64, WrapRing(TWO64, r)) == Size(0, r)
    ensures Free(TWO64, WrapRing(TWO64, r)) == Free(0, r)
    ensures Avail(TWO64, WrapRing(TWO64, r)) == Avail(0, r)
    ensures Distance(TWO64, Wrap(TWO64, r.head), Wrap(TWO64, r.cachedTail)) == r.head - r.cachedTail
  {
    WrapDistance(TWO64, r.head, r.tail);
    WrapDistance(TWO64, r.head, r.cachedTail);
    WrapDistance(TWO64, r.cachedHead, r.tail);
    ModSmall(r.capacity - (r.head - r.cachedTail), TWO64);
  }

  lemma {:induction false} WrapOffset(n: nat, j: int, h: int)
    requires IsPow2(n) && 0 < n < TWO64
    ensures (j - h % TWO64) % n == (j - h) % n
    ensures (h % TWO64 + j) % n == (h + j) % n
  {
    Pow2DividesWord(n, TWO64);
    ModMod(h, TWO64, n);
    ModReduceNeg(j, h % TWO64, n);
    ModReduceNeg(j, h, n);
    ModReduce(h % TWO64, j, n);
    ModReduce(h, j, n);
  }

  lemma {:induction false} WrapFill<T>(r: Ring<T>, h: int, xs: seq<T>)
    requires Valid(0, r)
    ensures Fill(r.capacity, r.buf, h % TWO64, xs) == Fill(r.capacity, r.buf, h, xs)
  {
    var a, b := Fill(r.capacity, r.buf, h % TWO64, xs), Fill(r.capacity, r.buf, h, xs);
    forall j | 0 <= j < r.capacity ensures a[j] == b[j] {
      WrapOffset(r.capacity, j, h);
    }
  }

  lemma {:induction false} WrapPeek<T>(r: Ring<T>, t: int, k: nat)
    requires Valid(0, r)
    ensures Peek(r.capacity, r.buf, t % TWO64, k) == Peek(r.capacity, r.buf, t, k)
  {
    var a, b := Peek(r.capacity, r.buf, t % TWO64, k), Peek(r.capacity, r.buf, t, k);
    forall i | 0 <= i < k ensures a[i] == b[i] {
      WrapOffset(r.capacity, i, t);
    }
  }

  lemma {:induction false} PushBatchWraps<T>(r: Ring<T>, xs: seq<T>)
    requires Valid(0, r)
    ensures var (r', n) := PushBatch(0, r, xs);
            PushBatch(TWO64, WrapRing(TWO64, r), xs) == (WrapRing(TWO64, r'), n)
  {
    var n := PushBatch(0, r, xs).1;
    assert Free(TWO64, WrapRing(TWO64, r)) == Free(0, r) by { WrapRingFacts(r); }
    var r1 := r.(cachedTail := r.tail);
    assert Free(TWO64, WrapRing(TWO64, r1)) == Free(0, r1) by { WrapRingFacts(r1); }
    assert PushBatch(TWO64, WrapRing(TWO64, r), xs).1 == n;
    WrapFill(r, r.head, xs[..n]);
    WrapAdvance(TWO64, r.head, n);
  }

  lemma {:induction false} PopBatchWraps<T>(r: Ring<T>, n: nat)
    requires Valid(0, r)
    ensures var (r', out) := PopBatch(0, r, n);
            PopBatch(TWO64, WrapRing(TWO64, r), n) == (WrapRing(TWO64, r'), out)
  {
    WrapRingFacts(r);
    WrapRingFacts(r.(cachedHead := r.head));
    var k := |PopBatch(0, r, n).1|;
    WrapPeek(r, r.tail, k);
    WrapAdvance(TWO64, r.tail, k);
  }

  lemma {:induction false} PushOnceWraps<T>(r: Ring<T>, x: T)
    requires Valid(0, r)
    ensures var (r', ok) := PushOnce(0, r, x);
            PushOnce(TWO64, WrapRing(TWO64, r), x) == (WrapRing(TWO64, r'), ok)
  {
    WrapRingFacts(r);
    WrapRingFacts(r.(cachedTail := r.tail));
    WrapFill(r, r.head, [x]);
    WrapAdvance(TWO64, r.head, 1);
  }

  lemma {:induction false} PopOnceWraps<T>(r: Ring<T>)
    requires Valid(0, r)
    ensures var (r', out) := PopOnce(0, r);
            PopOnce(TWO64, WrapRing(TWO64, r)) == (WrapRing(TWO64, r'), out)
  {
    WrapEqual(TWO64, r.cachedHead, r.tail);
    WrapEqual(TWO64, r.head, r.tail);
    WrapPeek(r, r.tail, 1);
    WrapAdvance(TWO64, r.tail, 1);
  }

  lemma {:induction false} WrapContents<T>(r: Ring<T>)
    requires Valid(0, r)
    ensures Valid(TWO64, WrapRing(TWO64, r))
    ensures Contents(TWO64, WrapRing(TWO64, r)) == Contents(0, r)
  {
    WrapRingFacts(r);
    forall i | 0 <= i < Size(0, r)
      ensures Contents(TWO64, WrapRing(TWO64, r))[i] == Contents(0, r)[i]
    {
      WrapAdvance(TWO64, r.tail, i);
      WrapSlot(TWO64, r.capacity, r.tail + i);
    }
  }

  /** Every wrapped ring is the image of one whose counters have not wrapped. */
  lemma {:induction false} Unwrap<T>(r: Ring<T>) returns (u: Ring<T>)
    requires Valid(TWO64, r)
    ensures Valid(0, u) && WrapRing(TWO64, u) == r
  {
    var tail := r.tail + TWO64;
    var head := tail + Distance(TWO64, r.head, r.tail);
    u := r.(tail := tail, head := head,
            cachedTail := head - Distance(TWO64, r.head, r.cachedTail),
            cachedHead := tail + Distance(TWO64, r.cachedHead, r.tail));
    NextLap(r.tail);
    Ahead(r.tail, tail, r.head);
    Ahead(r.tail, tail, r.cachedHead);
    Behind(r.head, head, r.cachedTail);
    assert WrapRing(TWO64, u) == r;
  }

  lemma {:induction false} NextLap(a: int)
    requires 0 <= a < TWO64
    ensures Wrap(TWO64, a + TWO64) == a
  {
    ModShift(a, TWO64, 1);
    ModSmall(a, TWO64);
  }

  /** A counter `t` that wraps to `b`, moved on by the distance of `a` from `b`, wraps to `a`. */
  lemma {:induction false} Ahead(b: int, t: int, a: int)
    requires 0 <= a < TWO64 && Wrap(TWO64, t) == b
    ensures Wrap(TWO64, t + Distance(TWO64, a, b)) == a
  {
    ModReduce(t, Distance(TWO64, a, b), TWO64);
    ModReduce(a - b, b, TWO64);
    ModSmall(a, TWO64);
  }

  /** ... and moved back by the distance of `a` from `b`, if it wraps to `a`, wraps to `b`. */
  lemma {:induction false} Behind(a: int, t: int, b: int)
    requires 0 <= b < TWO64 && Wrap(TWO64, t) == a
    ensures Wrap(TWO64, t - Distance(TWO64, a, b)) == b
  {
    ModReduceNeg(t, a - b, TWO64);
    ModReduce(t, -(a - b), TWO64);
    ModSmall(b, TWO64);
  }

  // ---- the calls are those of a bounded FIFO ----

  /** Copying `xs` in at counter `h` leaves every other live slot alone and is read back whole. */
  lemma {:induction false} FillPeek<T>(n: nat, buf: seq<T>, h: int, xs: seq<T>, i: int)
    requires n == |buf| > 0 && |xs| <= n
    ensures h <= i < h + |xs| ==> Fill(n, buf, h, xs)[i % n] == xs[i - h]
    ensures h + |xs| - n <= i < h ==> Fill(n, buf, h, xs)[i % n] == buf[i % n]
  {
    if h <= i < h + |xs| {
      OffsetOfSlot(h, i - h, i % n, n);
    }
    if h + |xs| - n <= i < h {
      ModShift(i, n, 1);
      OffsetOfSlot(h, i + n - h, i % n, n);
    }
  }

  lemma {:induction false} PeekSplit<T>(n: nat, buf: seq<T>, t: int, j: nat, k: nat)
    requires n == |buf| > 0 && j <= k
    ensures Peek(n, buf, t, k) == Peek(n, buf, t, j) + Peek(n, buf, t + j, k - j)
  {
    var a, b := Peek(n, buf, t, k), Peek(n, buf, t, j) + Peek(n, buf, t + j, k - j);
    forall i | 0 <= i < k ensures a[i] == b[i] {
      if j <= i { assert (t + j) + (i - j) == t + i; }
    }
  }

  lemma {:induction false} ContentsIsPeek<T>(r: Ring<T>)
    requires Valid(0, r)
    ensures Contents(0, r) == Peek(r.capacity, r.buf, r.tail, r.head - r.tail)
  {
  }

  lemma {:induction false} FillExtends<T>(n: nat, buf: seq<T>, t: int, h: int, xs: seq<T>)
    requires n == |buf| > 0 && t <= h && h + |xs| <= t + n
    ensures Peek(n, Fill(n, buf, h, xs), t, h - t + |xs|) == Peek(n, buf, t, h - t) + xs
  {
    var a, b := Peek(n, Fill(n, buf, h, xs), t, h - t + |xs|), Peek(n, buf, t, h - t) + xs;
    forall i | 0 <= i < h - t + |xs| ensures a[i] == b[i] {
      FillPeek(n, buf, h, xs, t + i);
    }
  }

  lemma {:induction false} PushBatchFifo<T>(r: Ring<T>, xs: seq<T>)
    requires Valid(0, r)
    ensures var (r', n) := PushBatch(0, r, xs);
            && Valid(0, r') && n == Min(|xs|, r.capacity - Size(0, r))
            && Contents(0, r') == Contents(0, r) + xs[..n]
  {
    var (r', n) := PushBatch(0, r, xs);
    ContentsIsPeek(r);
    ContentsIsPeek(r');
    FillExtends(r.capacity, r.buf, r.tail, r.head, xs[..n]);
    assert n == 0 ==> Contents(0, r) + xs[..n] == Contents(0, r);
  }

  lemma {:induction false} PopBatchFifo<T>(r: Ring<T>, n: nat)
    requires Valid(0, r)
    ensures var (r', out) := PopBatch(0, r, n);
            && Valid(0, r') && |out| == Min(n, Size(0, r))
            && out == Contents(0, r)[..|out|]
            && Contents(0, r') == Contents(0, r)[|out|..]
  {
    var (r', out) := PopBatch(0, r, n);
    ContentsIsPeek(r);
    ContentsIsPeek(r');
    PeekSplit(r.capacity, r.buf, r.tail, |out|, r.head - r.tail);
  }

  lemma {:induction false} PushOnceIsBatch<T>(r: Ring<T>, x: T)
    requires Valid(0, r)
    ensures var (r', n) := PushBatch(0, r, [x]); PushOnce(0, r, x) == (r', n == 1)
  {
    assert [x][..1] == [x];
  }

  lemma {:induction false} PopOnceIsBatch<T>(r: Ring<T>)
    requires Valid(0, r)
    ensures PopOnce(0, r) == PopBatch(0, r, 1)
  {
  }

  /** `push_n` of the list, as the loop that pushes one element at a time until the first failure. */
  function PushEach<T>(w: nat, r: Ring<T>, xs: seq<T>): (Ring<T>, nat)
    requires |r.buf| == r.capacity > 0
    decreases |xs|
  {
    if xs == [] then (r, 0) else
    var (r1, ok) := PushOnce(w, r, xs[0]);
    if !ok then (r1, 0) else
    var (r2, n) := PushEach(w, r1, xs[1..]);
    (r2, n + 1)
  }

  /** `pop_n`, as the loop that pops one element at a time until the first failure. */
  function PopEach<T>(w: nat, r: Ring<T>, n: nat): (Ring<T>, seq<T>)
    requires |r.buf| == r.capacity > 0
    decreases n
  {
    if n == 0 then (r, []) else
    var (r1, x) := PopOnce(w, r);
    if x == [] then (r1, []) else
    var (r2, out) := PopEach(w, r1, n - 1);
    (r2, x + out)
  }

  lemma {:induction false} FillCons<T>(n: nat, buf: seq<T>, h: int, xs: seq<T>)
    requires n == |buf| && 0 < |xs| <= n
    ensures Fill(n, buf, h, xs) == Fill(n, Fill(n, buf, h, xs[..1]), h + 1, xs[1..])
  {
    var once := Fill(n, buf, h, xs[..1]);
    var a, b := Fill(n, buf, h, xs), Fill(n, once, h + 1, xs[1..]);
    forall j | 0 <= j < n ensures a[j] == b[j] {
      var o := (j - h) % n;
      ModReduce(j - h, -1, n);
      if o == 0 {
        ModShift(-1, n, 1);
        ModSmall(n - 1, n);
      } else {
        ModSmall(o - 1, n);
      }
    }
  }

  lemma {:induction false} PushBatchStep<T>(r: Ring<T>, xs: seq<T>)
    requires Valid(0, r) && xs != []
    ensures var (r1, ok) := PushOnce(0, r, xs[0]);
            var (r2, n) := PushBatch(0, r1, xs[1..]);
            PushBatch(0, r, xs) == if !ok then (r1, 0) else (r2, n + 1)
  {
    var (r1, ok) := PushOnce(0, r, xs[0]);
    if ok {
      var n := PushBatch(0, r, xs).1;
      FillCons(r.capacity, r.buf, r.head, xs[..n]);
      assert xs[..n][1..] == xs[1..][..n - 1];
      assert xs[..n][..1] == [xs[0]];
      assert Fill(r.capacity, r1.buf, r.head + 1, []) == r1.buf;
    }
  }

  lemma {:induction false} PushBatchIsEachIdeal<T>(r: Ring<T>, xs: seq<T>)
    requires Valid(0, r)
    ensures PushBatch(0, r, xs) == PushEach(0, r, xs)
    decreases |xs|
  {
    if xs == [] {
    } else {
      PushBatchStep(r, xs);
      PushOnceIsBatch(r, xs[0]);
      PushBatchFifo(r, [xs[0]]);
      PushBatchIsEachIdeal(PushOnce(0, r, xs[0]).0, xs[1..]);
    }
  }

  lemma {:induction false} PopBatchStep<T>(r: Ring<T>, n: nat)
    requires Valid(0, r) && n > 0
    ensures var (r1, x) := PopOnce(0, r);
            var (r2, out) := PopBatch(0, r1, n - 1);
            PopBatch(0, r, n) == if x == [] then (r1, []) else (r2, x + out)
  {
    var out := PopBatch(0, r, n).1;
    if out != [] { PeekSplit(r.capacity, r.buf, r.tail, 1, |out|); }
  }

  lemma {:induction false} PopBatchIsEachIdeal<T>(r: Ring<T>, n: nat)
    requires Valid(0, r)
    ensures PopBatch(0, r, n) == PopEach(0, r, n)
    decreases n
  {
    if n == 0 {
    } else {
      PopBatchStep(r, n);
      PopOnceIsBatch(r);
      PopBatchFifo(r, 1);
      PopBatchIsEachIdeal(PopOnce(0, r).0, n - 1);
    }
  }

  lemma {:induction false} PushEachWraps<T>(r: Ring<T>, xs: seq<T>)
    requires Valid(0, r)
    ensures var (r', n) := PushEach(0, r, xs);
            PushEach(TWO64, WrapRing(TWO64, r), xs) == (WrapRing(TWO64, r'), n)
    decreases |xs|
  {
    if xs == [] {
    } else {
      PushOnceWraps(r, xs[0]);
      PushOnceIsBatch(r, xs[0]);
      PushBatchFifo(r, [xs[0]]);
      var (r1, ok) := PushOnce(0, r, xs[0]);
      if ok { PushEachWraps(r1, xs[1..]); }
    }
  }

  lemma {:induction false} PopEachWraps<T>(r: Ring<T>, n: nat)
    requires Valid(0, r)
    ensures var (r', out) := PopEach(0, r, n);
            PopEach(TWO64, WrapRing(TWO64, r), n) == (WrapRing(TWO64, r'), out)
    decreases n
  {
    if n == 0 {
    } else {
      PopOnceWraps(r);
      PopOnceIsBatch(r);
      PopBatchFifo(r, 1);
      var (r1, x) := PopOnce(0, r);
      if x != [] { PopEachWraps(r1, n - 1); }
    }
  }

  /** `push_n` leaves the whole struct, caches included, exactly as pushing one by one does. */
  lemma {:induction false} PushBatchIsEach<T>(r: Ring<T>, xs: seq<T>)
    requires Valid(TWO64, r)
    ensures PushBatch(TWO64, r, xs) == PushEach(TWO64, r, xs)
  {
    var u := Unwrap(r);
    PushBatchWraps(u, xs);
    PushEachWraps(u, xs);
    PushBatchIsEachIdeal(u, xs);
  }

  lemma {:induction false} PopBatchIsEach<T>(r: Ring<T>, n: nat)
    requires Valid(TWO64, r)
    ensures PopBatch(TWO64, r, n) == PopEach(TWO64, r, n)
  {
    var u := Unwrap(r);
    PopBatchWraps(u, n);
    PopEachWraps(u, n);
    PopBatchIsEachIdeal(u, n);
  }

  // ---- whole sequential runs ----

  datatype Op<T> = Push(x: T) | Pop | PushN(xs: seq<T>) | PopN(n: nat) | QuerySize

  datatype Reply<T> = Stored(count: int) | Taken(out: seq<T>) | Sized(size: int)

  function Call<T>(w: nat, r: Ring<T>, op: Op<T>): (res: (Ring<T>, Reply<T>))
    requires |r.buf| == r.capacity > 0
    ensures |res.0.buf| == res.0.capacity == r.capacity
  {
    match op
    case Push(x) => var (r', ok) := PushOnce(w, r, x); (r', Stored(if ok then 1 else 0))
    case Pop => var (r', out) := PopOnce(w, r); (r', Taken(out))
    case PushN(xs) => var (r', n) := PushBatch(w, r, xs); (r', Stored(n))
    case PopN(n) => var (r', out) := PopBatch(w, r, n); (r', Taken(out))
    case QuerySize => (r, Sized(Size(w, r)))
  }

  function Replies<T>(w: nat, r: Ring<T>, ops: seq<Op<T>>): seq<Reply<T>>
    requires |r.buf| == r.capacity > 0
    decreases |ops|
  {
    if ops == [] then [] else
    var (r', reply) := Call(w, r, ops[0]);
    [reply] + Replies(w, r', ops[1..])
  }

  /** The reference: a queue of at most `capacity` elements, with no buffer, counters or caches. */
  function FifoCall<T>(capacity: nat, q: seq<T>, op: Op<T>): (seq<T>, Reply<T>)
    requires |q| <= capacity
  {
    match op
    case Push(x) => if |q| < capacity then (q + [x], Stored(1)) else (q, Stored(0))
    case Pop => if q != [] then (q[1..], Taken([q[0]])) else (q, Taken([]))
    case PushN(xs) => var n := Min(|xs|, capacity - |q|); (q + xs[..n], Stored(n))
    case PopN(n) => var k := Min(n, |q|); (q[k..], Taken(q[..k]))
    case QuerySize => (q, Sized(|q|))
  }

  function FifoReplies<T>(capacity: nat, q: seq<T>, ops: seq<Op<T>>): seq<Reply<T>>
    requires |q| <= capacity
    decreases |ops|
  {
    if ops == [] then [] else
    var (q', reply) := FifoCall(capacity, q, ops[0]);
    [reply] + FifoReplies(capacity, q', ops[1..])
  }

  lemma {:induction false} PushOnceIdealIsFifo<T>(r: Ring<T>, x: T)
    requires Valid(0, r)
    ensures var (r', ok) := PushOnce(0, r, x); var q := Contents(0, r);
            Valid(0, r') && ok == (|q| < r.capacity) && Contents(0, r') == if ok then q + [x] else q
  {
    PushOnceIsBatch(r, x);
    PushBatchFifo(r, [x]);
    assert Contents(0, r) + [x][..0] == Contents(0, r) && [x][..1] == [x];
  }

  lemma {:induction false} PopOnceIdealIsFifo<T>(r: Ring<T>)
    requires Valid(0, r)
    ensures var (r', out) := PopOnce(0, r); var q := Contents(0, r);
            Valid(0, r') && (q == [] ==> out == [] && Contents(0, r') == q)
            && (q != [] ==> out == [q[0]] && Contents(0, r') == q[1..])
  {
    PopOnceIsBatch(r);
    PopBatchFifo(r, 1);
  }

  lemma {:induction false} CallIdealIsFifo<T>(r: Ring<T>, op: Op<T>)
    requires Valid(0, r)
    ensures Valid(0, Call(0, r, op).0)
    ensures (Contents(0, Call(0, r, op).0), Call(0, r, op).1)
         == FifoCall(r.capacity, Contents(0, r), op)
  {
    var q := Contents(0, r);
    match op
    case Push(x) => PushOnceIdealIsFifo(r, x);
    case Pop => PopOnceIdealIsFifo(r);
    case PushN(xs) => PushBatchFifo(r, xs);
    case PopN(n) => PopBatchFifo(r, n);
    case QuerySize =>
  }

  lemma {:induction false} CallWraps<T>(r: Ring<T>, op: Op<T>)
    requires Valid(0, r)
    ensures var (r', reply) := Call(0, r, op);
            Call(TWO64, WrapRing(TWO64, r), op) == (WrapRing(TWO64, r'), reply)
  {
    match op
    case Push(x) => PushOnceWraps(r, x);
    case Pop => PopOnceWraps(r);
    case PushN(xs) => PushBatchWraps(r, xs);
    case PopN(n) => PopBatchWraps(r, n);
    case QuerySize => WrapRingFacts(r);
  }

  /** One call on the wrapped struct is one call on the bounded FIFO. */
  lemma {:induction false} CallIsFifo<T>(r: Ring<T>, op: Op<T>)
    requires Valid(TWO64, r)
    ensures Valid(TWO64, Call(TWO64, r, op).0)
    ensures Call(TWO64, r, op).0.capacity == r.capacity
    ensures (Contents(TWO64, Call(TWO64, r, op).0), Call(TWO64, r, op).1)
         == FifoCall(r.capacity, Contents(TWO64, r), op)
  {
    var u := Unwrap(r);
    CallWraps(u, op);
    CallIdealIsFifo(u, op);
    WrapContents(u);
    WrapContents(Call(0, u, op).0);
  }

  /** No sequence of calls can tell the ring, its stale caches included, from the bounded FIFO. */
  lemma {:induction false} RunIsFifo<T>(r: Ring<T>, ops: seq<Op<T>>)
    requires Valid(TWO64, r)
    ensures Replies(TWO64, r, ops) == FifoReplies(r.capacity, Contents(TWO64, r), ops)
    decreases |ops|
  {
    if ops == [] {
    } else {
      CallIsFifo(r, ops[0]);
      RunIsFifo(Call(TWO64, r, ops[0]).0, ops[1..]);
    }
  }
}
