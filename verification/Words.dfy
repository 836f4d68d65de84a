/** Unsigned machine words.

The rings index their buffers with free-running unsigned counters. Every machine in this
project is written once, over a word size `w`: `w == 0` stands for counters that never wrap,
any other `w` for counters held modulo `w`. The lemmas here are what makes the two agree.
*/
module Words {

  const TWO32: nat := 0x1_0000_0000
  const TWO64: nat := 0x1_0000_0000_0000_0000

  /** The counter `a` moved on by `n`. */
  function Advance(w: nat, a: int, n: int): int {
    if w == 0 then a + n else (a + n) % w
  }

  /** The unsigned difference `a - b`. */
  function Distance(w: nat, a: int, b: int): int {
    if w == 0 then a - b else (a - b) % w
  }

  /** What a `w`-sized register holds of the counter `a`. */
  function Wrap(w: nat, a: int): int {
    Advance(w, a, 0)
  }

  function Min(a: int, b: int): int {
    if a <= b then a else b
  }

  // ---- modular arithmetic ----

  lemma {:induction false} DivModUnique(a: int, m: int, q: int, r: int)
    requires 0 <= r < m
    requires a == m * q + r
    ensures a / m == q && a % m == r
  {
    MultipleInRange(m, a / m - q, r - a % m) by {
      assert a == m * (a / m) + a % m;
      assert m * (a / m - q) == m * (a / m) - m * q;
    }
  }

  /** The only multiple of `m` strictly between `-m` and `m` is zero. */
  lemma {:induction false} MultipleInRange(m: int, d: int, p: int)
    requires -m < p < m && p == m * d
    ensures d == 0
  {
    assert d >= 1 ==> m * d >= m;
    assert d <= -1 ==> m * d <= -m;
  }

  lemma {:induction false} ModShift(a: int, m: int, k: int)
    requires m > 0
    ensures (a + m * k) % m == a % m
  {
    assert a == m * (a / m) + a % m;
    assert m * (a / m + k) == m * (a / m) + m * k;
    DivModUnique(a + m * k, m, a / m + k, a % m);
  }

  /** Congruence: an operand may be reduced first. */
  lemma {:induction false} ModReduce(a: int, n: int, m: int)
    requires m > 0
    ensures (a % m + n) % m == (a + n) % m
  {
    var q := a / m;
    assert a == m * q + a % m;
    assert a % m + n == (a + n) + m * (-q);
    ModShift(a + n, m, -q);
  }

  lemma {:induction false} ModSmall(a: int, m: int)
    requires 0 <= a < m
    ensures a % m == a
  {
    DivModUnique(a, m, 0, a);
  }

  /** Reducing modulo a multiple of `m` first changes nothing modulo `m`. */
  lemma {:induction false} ModMod(a: int, w: int, m: int)
    requires w > 0 && m > 0 && w % m == 0
    ensures (a % w) % m == a % m
  {
    var q, k := a / w, w / m;
    assert w == m * k;
    assert a == w * q + a % w;
    assert w * q == m * (k * q);
    assert a % w == a + m * (-(k * q)) by { assert m * (-(k * q)) == -(m * (k * q)); }
    ModShift(a, m, -(k * q));
  }

  /** Two indices less than a lap apart use different slots. */
  lemma {:induction false} SlotsDistinct(a: int, b: int, m: int)
    requires m > 0 && a < b < a + m
    ensures a % m != b % m
  {
    var q, r := a / m, a % m;
    assert a == m * q + r;
    if r + (b - a) < m {
      DivModUnique(b, m, q, r + (b - a));
    } else {
      assert m * (q + 1) == m * q + m;
      DivModUnique(b, m, q + 1, r + (b - a) - m);
    }
  }

  /** Slot `j` is `o` places past `start` exactly when it is the slot of `start + o`. */
  lemma {:induction false} OffsetOfSlot(start: int, o: int, j: int, m: int)
    requires m > 0 && 0 <= o < m && 0 <= j < m
    ensures (j - start) % m == o <==> j == (start + o) % m
  {
    if j == (start + o) % m {
      ModReduce(start + o, -start, m);
      ModSmall(o, m);
    }
    if (j - start) % m == o {
      ModReduce(j - start, start, m);
      ModSmall(j, m);
    }
  }

  /** A wrapped counter advances like the counter itself. */
  lemma {:induction false} WrapAdvance(w: nat, a: int, n: int)
    ensures Advance(w, Wrap(w, a), n) == Wrap(w, a + n)
  {
    if w > 0 { ModReduce(a, n, w); }
  }

  /** Wrapped counters less than a word apart have the true difference. */
  lemma {:induction false} WrapDistance(w: nat, a: int, b: int)
    requires w > 0 ==> 0 <= a - b < w
    ensures Distance(w, Wrap(w, a), Wrap(w, b)) == a - b
  {
    if w > 0 {
      ModReduce(a, -(b % w), w);
      ModReduceNeg(a, b, w);
      ModSmall(a - b, w);
    }
  }

  /** In general their unsigned difference is the true one, reduced. */
  lemma {:induction false} WrapDifference(w: nat, a: int, b: int)
    requires w > 0
    ensures Distance(w, Wrap(w, a), Wrap(w, b)) == (a - b) % w
    ensures 0 <= a - b < w ==> (a - b) % w == a - b
  {
    ModReduce(a, -(b % w), w);
    ModReduceNeg(a, b, w);
    if 0 <= a - b < w { ModSmall(a - b, w); }
  }

  lemma {:induction false} ModReduceNeg(a: int, b: int, m: int)
    requires m > 0
    ensures (a - b % m) % m == (a - b) % m
  {
    assert b == m * (b / m) + b % m;
    assert a - b % m == (a - b) + m * (b / m);
    ModShift(a - b, m, b / m);
  }

  /** Counters less than a word apart are equal exactly when their wrapped values are. */
  lemma {:induction false} WrapEqual(w: nat, a: int, b: int)
    requires w > 0 ==> 0 <= a - b < w
    ensures Wrap(w, a) == Wrap(w, b) <==> a == b
  {
    if w > 0 && a != b { SlotsDistinct(b, a, w); }
  }

  // ---- powers of two and the mask ----

  function Pow2(k: nat): (p: nat)
    ensures p >= 1
  {
    if k == 0 then 1 else 2 * Pow2(k - 1)
  }

  ghost predicate IsPow2(n: nat) {
    exists k: nat :: n == Pow2(k)
  }

  lemma {:induction false} Pow2Sum(a: nat, b: nat)
    ensures Pow2(a + b) == Pow2(a) * Pow2(b)
  {
    if a == 0 {
    } else {
      Pow2Sum(a - 1, b);
      assert Pow2(a + b) == 2 * (Pow2(a - 1) * Pow2(b));
    }
  }

  lemma {:induction false} Pow2Values()
    ensures Pow2(32) == TWO32 && Pow2(64) == TWO64
  {
    assert Pow2(4) == 16;
    Pow2Sum(4, 4);
    assert Pow2(8) == 0x100;
    Pow2Sum(8, 8);
    assert Pow2(16) == 0x1_0000;
    Pow2Sum(16, 16);
    assert Pow2(32) == TWO32;
    Pow2Sum(32, 32);
  }

  lemma {:induction false} Pow2Increasing(a: nat, b: nat)
    requires a < b
    ensures Pow2(a) < Pow2(b)
    decreases b
  {
    if a < b - 1 { Pow2Increasing(a, b - 1); }
  }

  /** A power of two no larger than a word divides it. */
  lemma {:induction false} Pow2DividesPow2(a: nat, b: nat)
    requires Pow2(a) <= Pow2(b)
    ensures Pow2(b) % Pow2(a) == 0
  {
    if b < a { Pow2Increasing(b, a); }
    Pow2Sum(a, b - a);
    DivModUnique(Pow2(b), Pow2(a), Pow2(b - a), 0);
  }

  lemma {:induction false} Pow2DividesWord(n: nat, w: nat)
    requires IsPow2(n) && n <= w && (w == TWO32 || w == TWO64)
    ensures w % n == 0
  {
    Pow2Values();
    var k: nat :| n == Pow2(k);
    Pow2DividesPow2(k, if w == TWO32 then 32 else 64);
  }

  /** C's `x & y` on unsigned operands, one bit at a time. */
  function BitAnd(x: nat, y: nat): nat {
    if x == 0 || y == 0 then 0
    else 2 * BitAnd(x / 2, y / 2) + (x % 2) * (y % 2)
  }

  lemma {:induction false} BitAndSelf(x: nat)
    ensures BitAnd(x, x) == x
  {
    if x == 0 {
    } else {
      BitAndSelf(x / 2);
    }
  }

  lemma {:induction false} ModDouble(x: nat, p: nat)
    requires p > 0
    ensures x % (2 * p) == 2 * (x / 2 % p) + x % 2
  {
    var q, r := x / 2 / p, x / 2 % p;
    assert x / 2 == p * q + r;
    assert (2 * p) * q == 2 * (p * q);
    DivModUnique(x, 2 * p, q, 2 * r + x % 2);
  }

  lemma {:induction false} BitAndOdd(x: nat, m: nat)
    ensures BitAnd(x, 2 * m + 1) == 2 * BitAnd(x / 2, m) + x % 2
  {
    assert (2 * m + 1) / 2 == m && (2 * m + 1) % 2 == 1;
  }

  lemma {:induction false} MaskOneBit(x: nat, p: nat)
    requires p > 0 && BitAnd(x / 2, p - 1) == x / 2 % p
    ensures BitAnd(x, 2 * p - 1) == x % (2 * p)
  {
    assert 2 * p - 1 == 2 * (p - 1) + 1;
    BitAndOdd(x, p - 1);
    ModDouble(x, p);
  }

  /** `x & (2^k - 1)` is `x mod 2^k`. */
  lemma {:induction false} MaskIsMod(x: nat, k: nat)
    ensures BitAnd(x, Pow2(k) - 1) == x % Pow2(k)
    decreases k
  {
    if k == 0 {
    } else {
      var p := Pow2(k - 1);
      MaskIsMod(x / 2, k - 1);
      MaskOneBit(x, p);
    }
  }

  lemma {:induction false} OddNotPow2(c: nat)
    requires c > 1 && c % 2 == 1
    ensures !IsPow2(c)
  {
    forall k: nat ensures c != Pow2(k) {
      assert k > 0 ==> Pow2(k) == 2 * Pow2(k - 1);
    }
  }

  /** The test `c != 0 && (c & (c - 1)) == 0` accepts exactly the powers of two. */
  lemma {:induction false} MaskTestIsPow2(c: nat)
    requires c != 0
    ensures BitAnd(c, c - 1) == 0 <==> IsPow2(c)
  {
    var m := c / 2;
    if c == 1 {
      assert Pow2(0) == 1;
    } else if c % 2 == 1 {
      BitAndSelf(m);
      assert (c - 1) / 2 == m && (c - 1) % 2 == 0;
      assert BitAnd(c, c - 1) == 2 * m;
      OddNotPow2(c);
    } else {
      MaskTestIsPow2(m);
      assert (c - 1) / 2 == m - 1 && c % 2 == 0;
      assert BitAnd(c, c - 1) == 2 * BitAnd(m, m - 1);
      if IsPow2(m) {
        var k: nat :| m == Pow2(k);
        assert c == Pow2(k + 1);
      }
      if IsPow2(c) {
        var k: nat :| c == Pow2(k);
        assert k != 0 && m == Pow2(k - 1);
      }
    }
  }

  /** The slot of counter `i` in a ring of `n` cells: a remainder for an unbounded counter,
      the C expression `i & (n - 1)` for a register. A ring without cells has no slots; the
      callers never reach it. */
  function Slot(w: nat, n: nat, i: int): int {
    if n == 0 then 0
    else if w == 0 then i % n
    else BitAnd(if i < 0 then 0 else i, n - 1)
  }

  lemma {:induction false} SlotInRange(w: nat, n: nat, i: int)
    requires IsPow2(n) && n > 0
    ensures 0 <= Slot(w, n, i) < n
  {
    var k: nat :| n == Pow2(k);
    MaskIsMod(if i < 0 then 0 else i, k);
  }

  lemma {:induction false} SlotIsMod(w: nat, n: nat, i: nat)
    requires IsPow2(n) && n > 0
    ensures Slot(w, n, i) == i % n
  {
    var k: nat :| n == Pow2(k);
    MaskIsMod(i, k);
  }

  /** Masking a wrapped counter finds the slot of the unbounded one. */
  lemma {:induction false} WrapSlot(w: nat, n: nat, i: int)
    requires w == 0 || w == TWO32 || w == TWO64
    requires w != 0 ==> n == 0 || (IsPow2(n) && n <= w)
    ensures Slot(w, n, Wrap(w, i)) == Slot(0, n, i)
    ensures n > 0 ==> Slot(0, n, i) == i % n
  {
    if w != 0 && n != 0 {
      var k: nat :| n == Pow2(k);
      MaskIsMod(i % w, k);
      Pow2DividesWord(n, w);
      ModMod(i, w, n);
    }
  }
}
