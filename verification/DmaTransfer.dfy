/** What the DMA engine does with one submission, and with a sequence of them.

The rings are kept apart from `Memory`, which holds the data buffers: buffers are taken to be
disjoint from the rings.
*/
module DmaTransfer {
  import opened Words

  newtype Byte = b: int | 0 <= b < 256

  const DEV_BUF_SIZE: nat := 4096
  const OP_TX: nat := 1
  const OP_RX: nat := 2

  datatype Sqe = Sqe(cookie: nat, bufAddr: nat, len: nat, op: nat)

  datatype Cqe = Cqe(cookie: nat, status: int, bytesXferred: nat)

  type Memory = map<nat, Byte>

  /** Host memory and the device's internal buffer. */
  datatype World = World(mem: Memory, buf: seq<Byte>)

  /** Whether the data transfer succeeded. A failed one leaves arbitrary bytes where it wrote. */
  datatype Outcome = Done | Failed(junk: seq<Byte>)

  function ByteAt(mem: Memory, a: nat): Byte {
    if a in mem then mem[a] else 0
  }

  function ReadMem(mem: Memory, a: nat, n: nat): (bs: seq<Byte>)
    ensures |bs| == n
  {
    seq(n, i requires 0 <= i < n => ByteAt(mem, a + i))
  }

  function WriteMem(mem: Memory, a: nat, bs: seq<Byte>): Memory
    decreases |bs|
  {
    if bs == [] then mem else WriteMem(mem[a := bs[0]], a + 1, bs[1..])
  }

  lemma {:induction false} WriteMemAt(mem: Memory, a: nat, bs: seq<Byte>, x: nat)
    ensures ByteAt(WriteMem(mem, a, bs), x) == if a <= x < a + |bs| then bs[x - a] else ByteAt(mem, x)
    decreases |bs|
  {
    if bs == [] {
    } else {
      WriteMemAt(mem[a := bs[0]], a + 1, bs[1..], x);
    }
  }

  function Clamp(len: nat): (n: nat)
    ensures n <= DEV_BUF_SIZE
  {
    Min(len, DEV_BUF_SIZE)
  }

  function Fit(junk: seq<Byte>, n: nat): (bs: seq<Byte>)
    ensures |bs| == n
  {
    seq(n, i requires 0 <= i < n => if i < |junk| then junk[i] else 0)
  }

  /** One submission: the world after its data transfer. */
  function Transfer(w: World, sqe: Sqe, o: Outcome): (w': World)
    requires |w.buf| == DEV_BUF_SIZE
    ensures |w'.buf| == DEV_BUF_SIZE
  {
    var n := Clamp(sqe.len);
    if sqe.op == OP_TX then
      w.(buf := (if o.Done? then ReadMem(w.mem, sqe.bufAddr, n) else Fit(o.junk, n)) + w.buf[n..])
    else if sqe.op == OP_RX then
      w.(mem := WriteMem(w.mem, sqe.bufAddr, if o.Done? then w.buf[..n] else Fit(o.junk, n)))
    else w
  }

  function Status(sqe: Sqe, o: Outcome): int {
    if sqe.op != OP_TX && sqe.op != OP_RX then -22 else if o.Done? then 0 else -1
  }

  /** The completion the device posts for it. */
  function Completion(sqe: Sqe, o: Outcome): Cqe {
    var status := Status(sqe, o);
    Cqe(sqe.cookie, status, if status == 0 then Clamp(sqe.len) else 0)
  }

  /** The world after the first `|sqes|` submissions, whatever doorbells announced them. */
  function WorldAfter(w: World, sqes: seq<Sqe>, outs: seq<Outcome>): (w': World)
    requires |w.buf| == DEV_BUF_SIZE && |sqes| <= |outs|
    ensures |w'.buf| == DEV_BUF_SIZE
    decreases |sqes|
  {
    if sqes == [] then w else
    var k := |sqes| - 1;
    Transfer(WorldAfter(w, sqes[..k], outs), sqes[k], outs[k])
  }

  function Completions(sqes: seq<Sqe>, outs: seq<Outcome>): (cs: seq<Cqe>)
    requires |sqes| <= |outs|
    ensures |cs| == |sqes|
  {
    seq(|sqes|, i requires 0 <= i < |sqes| => Completion(sqes[i], outs[i]))
  }

  lemma {:induction false} WorldStep(w: World, sqes: seq<Sqe>, outs: seq<Outcome>, k: nat)
    requires |w.buf| == DEV_BUF_SIZE && k < |sqes| <= |outs|
    ensures WorldAfter(w, sqes[..k + 1], outs) == Transfer(WorldAfter(w, sqes[..k], outs), sqes[k], outs[k])
  {
    assert sqes[..k + 1][..k] == sqes[..k];
  }

  lemma {:induction false} WorldSnoc(w: World, sqes: seq<Sqe>, outs: seq<Outcome>, sqe: Sqe, o: Outcome)
    requires |w.buf| == DEV_BUF_SIZE && |sqes| == |outs|
    ensures WorldAfter(w, sqes + [sqe], outs + [o]) == Transfer(WorldAfter(w, sqes, outs), sqe, o)
  {
    assert (sqes + [sqe])[..|sqes|] == sqes;
    WorldPrefix(w, sqes, outs, outs + [o]);
  }

  /** Later outcomes do not matter. */
  lemma {:induction false} WorldPrefix(w: World, sqes: seq<Sqe>, a: seq<Outcome>, b: seq<Outcome>)
    requires |w.buf| == DEV_BUF_SIZE && |sqes| <= |a| && |sqes| <= |b|
    requires a[..|sqes|] == b[..|sqes|]
    ensures WorldAfter(w, sqes, a) == WorldAfter(w, sqes, b)
    decreases |sqes|
  {
    if sqes == [] {
    } else {
      var k := |sqes| - 1;
      assert a[..k] == a[..|sqes|][..k] && b[..k] == b[..|sqes|][..k];
      WorldPrefix(w, sqes[..k], a, b);
      assert a[k] == a[..|sqes|][k] && b[k] == b[..|sqes|][k];
    }
  }

  // ---- the device buffer ----

  // In what follows the op codes (1 for TX, 2 for RX) and the 4096 bytes of the device buffer are
  // written out, as the driver and the device have agreed on them.

  /** Submission `sqe` stores into byte `i` of the device buffer. */
  predicate Stores(sqe: Sqe, i: nat) {
    sqe.op == 1 && i < sqe.len && i < 4096
  }

  /** Submission `sqe` stores into host memory at `x`. */
  predicate StoresAt(sqe: Sqe, x: nat) {
    sqe.op == 2 && sqe.bufAddr <= x < sqe.bufAddr + sqe.len && x < sqe.bufAddr + 4096
  }

  /** Completion `c` answers submission `sqe`, whose transfer went as `o` says. */
  predicate Answers(c: Cqe, sqe: Sqe, o: Outcome) {
    var known := sqe.op == 1 || sqe.op == 2;
    && c.cookie == sqe.cookie
    && c.status in {0, -1, -22}
    && (c.status == 0 <==> known && o.Done?)
    && (c.status == -22 <==> !known)
    && c.bytesXferred == (if c.status != 0 then 0 else if sqe.len <= 4096 then sqe.len else 4096)
  }

  /** What one submission moves, byte by byte: a TX host bytes into the device buffer, an RX device
      bytes into host memory, anything else nothing; and what its completion says. A failed transfer
      changes no byte outside those either. */
  lemma {:induction false} OneTransfer(w: World, sqe: Sqe, o: Outcome, i: nat, x: nat)
    requires |w.buf| == 4096
    ensures var w' := Transfer(w, sqe, o);
            && |w'.buf| == 4096
            && (i < 4096 && !Stores(sqe, i) ==> w'.buf[i] == w.buf[i])
            && (i < 4096 && Stores(sqe, i) && o.Done? ==> w'.buf[i] == ByteAt(w.mem, sqe.bufAddr + i))
            && (!StoresAt(sqe, x) ==> ByteAt(w'.mem, x) == ByteAt(w.mem, x))
            && (StoresAt(sqe, x) && o.Done? ==> ByteAt(w'.mem, x) == w.buf[x - sqe.bufAddr])
    ensures Answers(Completion(sqe, o), sqe, o)
  {
    if i < 4096 && !Stores(sqe, i) { TransferKeeps(w, sqe, o, i); }
    if Stores(sqe, i) { TransferStores(w, sqe, i); }
    HostByte(w, sqe, o, x);
  }

  lemma {:induction false} HostByte(w: World, sqe: Sqe, o: Outcome, x: nat)
    requires |w.buf| == 4096
    ensures var w' := Transfer(w, sqe, o);
            && (!StoresAt(sqe, x) ==> ByteAt(w'.mem, x) == ByteAt(w.mem, x))
            && (StoresAt(sqe, x) && o.Done? ==> ByteAt(w'.mem, x) == w.buf[x - sqe.bufAddr])
  {
    var n := Clamp(sqe.len);
    WriteMemAt(w.mem, sqe.bufAddr, if o.Done? then w.buf[..n] else Fit(o.junk, n), x);
  }

  lemma {:induction false} TransferStores(w: World, sqe: Sqe, i: nat)
    requires |w.buf| == 4096 && Stores(sqe, i)
    ensures Transfer(w, sqe, Done).buf[i] == ByteAt(w.mem, sqe.bufAddr + i)
  {
    var n := Clamp(sqe.len);
    var bs := ReadMem(w.mem, sqe.bufAddr, n);
    assert (bs + w.buf[n..])[i] == bs[i];
  }

  lemma {:induction false} TransferKeeps(w: World, sqe: Sqe, o: Outcome, i: nat)
    requires |w.buf| == 4096 && i < 4096 && !Stores(sqe, i)
    ensures Transfer(w, sqe, o).buf[i] == w.buf[i]
  {
  }

  /** With no store into byte `i` from `a` on, the byte stays what it was. */
  lemma {:induction false} ByteUntouched(w: World, sqes: seq<Sqe>, outs: seq<Outcome>, a: nat, i: nat)
    requires |w.buf| == 4096 && a <= |sqes| <= |outs| && i < 4096
    requires forall k :: a <= k < |sqes| ==> !Stores(sqes[k], i)
    ensures WorldAfter(w, sqes, outs).buf[i] == WorldAfter(w, sqes[..a], outs).buf[i]
    decreases |sqes|
  {
    if a < |sqes| {
      var k := |sqes| - 1;
      var before := WorldAfter(w, sqes[..k], outs);
      assert before.buf[i] == WorldAfter(w, sqes[..a], outs).buf[i] by {
        ByteUntouched(w, sqes[..k], outs, a, i);
        assert sqes[..k][..a] == sqes[..a];
      }
      TransferKeeps(before, sqes[k], outs[k], i);
    } else {
      assert sqes[..a] == sqes;
    }
  }

  lemma {:induction false} StoredByte(w: World, sqes: seq<Sqe>, outs: seq<Outcome>, j: nat, i: nat)
    requires |w.buf| == 4096 && j < |sqes| <= |outs| && outs[j] == Done && Stores(sqes[j], i)
    ensures WorldAfter(w, sqes[..j + 1], outs).buf[i] == ByteAt(WorldAfter(w, sqes[..j], outs).mem, sqes[j].bufAddr + i)
  {
    WorldStep(w, sqes, outs, j);
    TransferStores(WorldAfter(w, sqes[..j], outs), sqes[j], i);
  }

  /** Last writer per byte: after any submissions, byte `i` of the device buffer comes from the most
      recent TX whose clamped length exceeds `i`, as host memory was then, provided that TX succeeded;
      how the others went does not matter. */
  lemma {:induction false} LastWriter(w: World, sqes: seq<Sqe>, outs: seq<Outcome>, j: nat, i: nat)
    requires |w.buf| == 4096 && |sqes| <= |outs| && i < 4096
    requires j < |sqes| && outs[j] == Done && Stores(sqes[j], i)
    requires forall k :: j < k < |sqes| ==> !Stores(sqes[k], i)
    ensures WorldAfter(w, sqes, outs).buf[i] == ByteAt(WorldAfter(w, sqes[..j], outs).mem, sqes[j].bufAddr + i)
  {
    StoredByte(w, sqes, outs, j, i);
    ByteUntouched(w, sqes, outs, j + 1, i);
  }

  /** ... and keeps its first value if no TX ever reached it. */
  lemma {:induction false} NeverWritten(w: World, sqes: seq<Sqe>, outs: seq<Outcome>, i: nat)
    requires |w.buf| == 4096 && |sqes| <= |outs| && i < 4096
    requires forall k :: 0 <= k < |sqes| ==> !Stores(sqes[k], i)
    ensures WorldAfter(w, sqes, outs).buf[i] == w.buf[i]
  {
    ByteUntouched(w, sqes, outs, 0, i);
    assert WorldAfter(w, sqes[..0], outs) == w;
  }

  /** Round trip: an RX of `m` bytes that follows a TX of `n` bytes, both successful, with no TX
      between, puts the TX's first `min(m, n, 4096)` bytes at its own address. */
  lemma {:induction false} TxThenRx(w: World, sqes: seq<Sqe>, outs: seq<Outcome>, a: nat, b: nat, i: nat)
    requires |w.buf| == 4096 && |sqes| <= |outs|
    requires a < b < |sqes| && sqes[a].op == 1 && sqes[b].op == 2 && outs[a] == outs[b] == Done
    requires forall k :: a < k < b ==> sqes[k].op != 1
    requires i < sqes[a].len && i < sqes[b].len && i < 4096
    ensures ByteAt(WorldAfter(w, sqes[..b + 1], outs).mem, sqes[b].bufAddr + i)
         == ByteAt(WorldAfter(w, sqes[..a], outs).mem, sqes[a].bufAddr + i)
  {
    LoadedByte(w, sqes, outs, b, i);
    assert sqes[..b][..a] == sqes[..a];
    assert forall k :: a < k < b ==> !Stores(sqes[..b][k], i);
    LastWriter(w, sqes[..b], outs, a, i);
  }

  lemma {:induction false} LoadedByte(w: World, sqes: seq<Sqe>, outs: seq<Outcome>, b: nat, i: nat)
    requires |w.buf| == 4096 && b < |sqes| <= |outs| && outs[b] == Done
    requires sqes[b].op == 2 && i < sqes[b].len && i < 4096
    ensures ByteAt(WorldAfter(w, sqes[..b + 1], outs).mem, sqes[b].bufAddr + i) == WorldAfter(w, sqes[..b], outs).buf[i]
  {
    WorldStep(w, sqes, outs, b);
    HostByte(WorldAfter(w, sqes[..b], outs), sqes[b], outs[b], sqes[b].bufAddr + i);
  }

  /** Host memory changes only where an RX was told to write. */
  lemma {:induction false} MemoryFrame(w: World, sqes: seq<Sqe>, outs: seq<Outcome>, x: nat)
    requires |w.buf| == 4096 && |sqes| <= |outs|
    requires forall k :: 0 <= k < |sqes| ==> !StoresAt(sqes[k], x)
    ensures ByteAt(WorldAfter(w, sqes, outs).mem, x) == ByteAt(w.mem, x)
    decreases |sqes|
  {
    if sqes == [] {
    } else {
      var k := |sqes| - 1;
      MemoryFrame(w, sqes[..k], outs, x);
      HostByte(WorldAfter(w, sqes[..k], outs), sqes[k], outs[k], x);
    }
  }
}
