/** The device of `dma_engine.c` and the driver of `nic.c` as code that updates registers, rings and
buffers in place. Each operation is proved to be the call of the same name in `DmaCalls`. */
module DmaEngine {
  import opened Words
  import opened DmaTransfer
  import opened DmaRings
  import opened DmaProperties
  import opened DmaCalls

  const REG_DEVICE_ID: nat := 0x00
  const REG_DEVICE_STATUS: nat := 0x04
  const REG_SQ_BASE_LO: nat := 0x08
  const REG_SQ_BASE_HI: nat := 0x0C
  const REG_CQ_BASE_LO: nat := 0x10
  const REG_CQ_BASE_HI: nat := 0x14
  const REG_SQ_DEPTH: nat := 0x18
  const REG_CQ_DEPTH: nat := 0x1C
  const REG_SQ_DOORBELL: nat := 0x20
  const REG_IRQ_STATUS: nat := 0x24
  const REG_IRQ_ACK: nat := 0x28
  const REG_SQ_HEAD: nat := 0x2C
  const REG_CQ_TAIL: nat := 0x30

  const DEVICE_ID_MAGIC: nat := 0xDEA1_0001

  function Low(base: nat): nat {
    base % TWO32
  }

  function High(base: nat): nat {
    base / TWO32
  }

  /** A 64-bit base address with one half replaced by a register write. */
  function WithLow(base: nat, val: nat): (r: nat)
    ensures base < TWO64 ==> r < TWO64
    ensures Low(r) == val % TWO32 && High(r) == High(base)
  {
    DivModUnique(base / TWO32 * TWO32 + val % TWO32, TWO32, base / TWO32, val % TWO32);
    base / TWO32 * TWO32 + val % TWO32
  }

  function WithHigh(base: nat, val: nat): (r: nat)
    ensures r < TWO64
    ensures Low(r) == Low(base) && High(r) == val % TWO32
  {
    DivModUnique(val % TWO32 * TWO32 + base % TWO32, TWO32, val % TWO32, base % TWO32);
    val % TWO32 * TWO32 + base % TWO32
  }

  /** The device. The rings are guest memory, shared with the driver. */
  class Device {
    const sq: array<Sqe>
    const cq: array<Cqe>
    const devBuf: array<Byte>
    var mem: Memory
    var sqDepth: nat
    var cqDepth: nat
    var sqHead: nat
    var sqTail: nat
    var cqTail: nat
    var irqStatus: nat
    var armed: bool
    const msi: bool
    var messages: nat
    var line: bool
    var sqBase: nat
    var cqBase: nat

    /** What the device has of the rings; the driver's counters are the caller's. */
    ghost function View(driverTail: int, driverHead: int): Hw
      reads this, sq, cq, devBuf
    {
      Hw(sqDepth, cqDepth, sq[..], cq[..], driverTail, driverHead, sqTail, sqHead, cqTail,
         World(mem, devBuf[..]))
    }

    ghost predicate Valid()
      reads this, sq, cq, devBuf
    {
      RingsOk(TWO32, View(0, 0)) && sqDepth > 0
    }

    constructor (sq: array<Sqe>, cq: array<Cqe>, sqBase: nat, cqBase: nat, mem: Memory, msi: bool)
      requires sq.Length < TWO32 && IsPow2(sq.Length) && cq.Length < TWO32 && IsPow2(cq.Length)
      ensures Valid() && fresh(devBuf) && this.sq == sq && this.cq == cq
      ensures sqDepth == sq.Length && cqDepth == cq.Length && this.mem == mem
      ensures sqHead == sqTail == cqTail == irqStatus == messages == 0 && !armed && !line
      ensures forall i :: 0 <= i < devBuf.Length ==> devBuf[i] == 0
      ensures this.sqBase == sqBase && this.cqBase == cqBase && this.msi == msi
    {
      this.sq, this.cq, this.mem := sq, cq, mem;
      devBuf := new Byte[DEV_BUF_SIZE](i => 0);
      sqDepth, cqDepth := sq.Length, cq.Length;
      sqHead, sqTail, cqTail, irqStatus, messages, armed, line := 0, 0, 0, 0, 0, false, false;
      this.sqBase, this.cqBase, this.msi := sqBase, cqBase, msi;
      new;
      PowersArePositive(sq.Length);
    }

    /** Guest memory into the device buffer; a failed access leaves arbitrary bytes. */
    method DmaRead(addr: nat, len: nat, o: Outcome)
      requires len <= devBuf.Length
      modifies devBuf
      ensures devBuf[..] == (if o.Done? then ReadMem(mem, addr, len) else Fit(o.junk, len)) + old(devBuf[len..])
    {
      var bytes := if o.Done? then ReadMem(mem, addr, len) else Fit(o.junk, len);
      var i := 0;
      while i < len
        invariant i <= len
        invariant forall j :: 0 <= j < i ==> devBuf[j] == bytes[j]
        invariant forall j :: i <= j < devBuf.Length ==> devBuf[j] == old(devBuf[j])
      {
        devBuf[i] := bytes[i];
        i := i + 1;
      }
    }

    /** The device buffer into guest memory. */
    method DmaWrite(addr: nat, len: nat, o: Outcome)
      requires len <= devBuf.Length
      modifies this`mem
      ensures mem == WriteMem(old(mem), addr, if o.Done? then devBuf[..len] else Fit(o.junk, len))
    {
      mem := WriteMem(mem, addr, if o.Done? then devBuf[..len] else Fit(o.junk, len));
    }

    /** A message interrupt is sent once; the interrupt line is up from now on. */
    method RaiseIrq()
      modifies this`irqStatus, this`messages, this`line
      ensures irqStatus == (if old(irqStatus) % 2 == 0 then old(irqStatus) + 1 else old(irqStatus))
      ensures irqStatus != 0
      ensures messages == old(messages) + (if msi then 1 else 0) && line == (!msi || old(line))
    {
      if irqStatus % 2 == 0 {
        irqStatus := irqStatus + 1;
      }
      if msi {
        messages := messages + 1;
      } else {
        line := true;
      }
    }

    method LowerIrq()
      modifies this`irqStatus, this`line
      ensures irqStatus == 0 && line == (msi && old(line))
    {
      irqStatus := 0;
      if !msi {
        line := false;
      }
    }

    /** One submission: its data transfer and its completion. */
    method Execute(sqe: Sqe, o: Outcome) returns (cqe: Cqe)
      requires devBuf.Length == DEV_BUF_SIZE
      modifies this`mem, devBuf
      ensures World(mem, devBuf[..]) == Transfer(old(World(mem, devBuf[..])), sqe, o)
      ensures cqe == Completion(sqe, o)
    {
      var len := sqe.len;
      if len > DEV_BUF_SIZE {
        len := DEV_BUF_SIZE;
      }
      var status := 0;
      if sqe.op == OP_TX {
        DmaRead(sqe.bufAddr, len, o);
        if !o.Done? { status := -1; }
      } else if sqe.op == OP_RX {
        DmaWrite(sqe.bufAddr, len, o);
        if !o.Done? { status := -1; }
      } else {
        status := -22;
      }
      cqe := Cqe(sqe.cookie, status, if status == 0 then len else 0);
    }

    /** One iteration of the processing loop. */
    method ProcessOneSqe(o: Outcome)
      requires Valid() && cqDepth > 0 && Apart()
      modifies this`mem, this`sqHead, this`cqTail, cq, devBuf
      ensures Valid()
      ensures View(0, 0) == ProcessOne(TWO32, old(View(0, 0)), o)
    {
      ghost var h := View(0, 0);
      SlotInRange(TWO32, sqDepth, sqHead);
      SlotInRange(TWO32, cqDepth, cqTail);
      var sqe := sq[BitAnd(sqHead, sqDepth - 1)];
      var cqe := Execute(sqe, o);
      cq[BitAnd(cqTail, cqDepth - 1)] := cqe;
      sqHead := Advance(TWO32, sqHead, 1);
      cqTail := Advance(TWO32, cqTail, 1);
      assert cq[..] == h.cq[Slot(TWO32, h.cqDepth, h.cqTail) := cqe];
    }

    /** The timer callback: work through everything between `sqHead` and the doorbell value, then
        raise an interrupt if anything was done. */
    method Process(outs: seq<Outcome>)
      requires Valid() && Apart()
      requires sqHead < TWO32 && sqTail < TWO32 && Distance(TWO32, sqTail, sqHead) <= |outs|
      modifies this`mem, this`sqHead, this`cqTail, this`irqStatus, this`messages, this`line, cq, devBuf
      ensures Valid()
      ensures View(0, 0) == ProcessCall(TWO32, old(View(0, 0)), outs)
      ensures old(cqTail == sqHead) && cqDepth > 0 ==> sqHead == sqTail == cqTail
      ensures if old(sqHead != sqTail && (cqTail - sqHead) % TWO32 < cqDepth)
              then irqStatus != 0 && messages == old(messages) + (if msi then 1 else 0) && line == (!msi || old(line))
              else irqStatus == old(irqStatus) && messages == old(messages) && line == old(line)
    {
      ghost var h := View(0, 0);
      var didWork, k := false, 0;
      while sqHead != sqTail
        invariant Valid() && k <= |outs| && sqHead < TWO32 && sqTail == h.bell
        invariant Distance(TWO32, sqTail, sqHead) <= |outs| - k
        invariant ProcessCall(TWO32, View(0, 0), outs[k..]) == ProcessCall(TWO32, h, outs)
        invariant didWork == (k > 0) && (didWork ==> LoopGuard(TWO32, h))
        invariant k == 0 ==> View(0, 0) == h
        invariant irqStatus == old(irqStatus) && messages == old(messages) && line == old(line)
        invariant old(cqTail == sqHead) ==> cqTail == sqHead
        decreases Distance(TWO32, sqTail, sqHead)
      {
        StepCloser(sqTail, sqHead);
        if Distance(TWO32, cqTail, sqHead) >= cqDepth {
          break;
        }
        assert LoopGuard(TWO32, View(0, 0));
        assert outs[k..][0] == outs[k] && outs[k..][1..] == outs[k + 1..];
        ProcessOneSqe(outs[k]);
        k := k + 1;
        didWork := true;
      }
      if didWork {
        RaiseIrq();
      }
    }

    /** The registers the driver reads, by their offsets; every other offset reads as zero. */
    method MmioRead(reg: nat) returns (val: nat)
      ensures reg == 0x00 ==> val == 0xDEA1_0001
      ensures reg == 0x04 ==>
                val == if sqBase != 0 && cqBase != 0 && sqDepth != 0 && cqDepth != 0 then 1 else 0
      ensures reg == 0x08 ==> val == Low(sqBase)
      ensures reg == 0x0C ==> val == High(sqBase)
      ensures reg == 0x10 ==> val == Low(cqBase)
      ensures reg == 0x14 ==> val == High(cqBase)
      ensures reg == 0x18 ==> val == sqDepth
      ensures reg == 0x1C ==> val == cqDepth
      ensures reg == 0x24 ==> val == irqStatus
      ensures reg == 0x2C ==> val == sqHead
      ensures reg == 0x30 ==> val == cqTail
      ensures reg == 0x20 || reg == 0x28 || reg % 4 != 0 || reg > 0x30 ==> val == 0
    {
      if reg == REG_DEVICE_ID { return DEVICE_ID_MAGIC; }
      if reg == REG_DEVICE_STATUS {
        return if sqBase != 0 && cqBase != 0 && sqDepth != 0 && cqDepth != 0 then 1 else 0;
      }
      if reg == REG_SQ_BASE_LO { return Low(sqBase); }
      if reg == REG_SQ_BASE_HI { return High(sqBase); }
      if reg == REG_CQ_BASE_LO { return Low(cqBase); }
      if reg == REG_CQ_BASE_HI { return High(cqBase); }
      if reg == REG_SQ_DEPTH { return sqDepth; }
      if reg == REG_CQ_DEPTH { return cqDepth; }
      if reg == REG_IRQ_STATUS { return irqStatus; }
      if reg == REG_SQ_HEAD { return sqHead; }
      if reg == REG_CQ_TAIL { return cqTail; }
      return 0;
    }

    /** The doorbell takes the new tail and schedules processing; an acknowledge clears the status and
        lowers the line; a register write changes nothing else. */
    method MmioWrite(reg: nat, val: nat)
      modifies this`sqTail, this`armed, this`irqStatus, this`line
      modifies this`sqDepth, this`cqDepth, this`sqBase, this`cqBase
      ensures sqTail == (if reg == 0x20 then val % TWO32 else old(sqTail))
      ensures armed == (reg == 0x20 || old(armed))
      ensures irqStatus == (if reg == 0x28 then 0 else old(irqStatus))
      ensures line == (old(line) && (reg == 0x28 ==> msi))
      ensures sqDepth == (if reg == 0x18 then val % TWO32 else old(sqDepth))
      ensures cqDepth == (if reg == 0x1C then val % TWO32 else old(cqDepth))
      ensures sqBase == (if reg == 0x08 then WithLow(old(sqBase), val)
                         else if reg == 0x0C then WithHigh(old(sqBase), val) else old(sqBase))
      ensures cqBase == (if reg == 0x10 then WithLow(old(cqBase), val)
                         else if reg == 0x14 then WithHigh(old(cqBase), val) else old(cqBase))
    {
      if reg == REG_SQ_BASE_LO {
        sqBase := WithLow(sqBase, val);
      } else if reg == REG_SQ_BASE_HI {
        sqBase := WithHigh(sqBase, val);
      } else if reg == REG_CQ_BASE_LO {
        cqBase := WithLow(cqBase, val);
      } else if reg == REG_CQ_BASE_HI {
        cqBase := WithHigh(cqBase, val);
      } else if reg == REG_SQ_DEPTH {
        sqDepth := val % TWO32;
      } else if reg == REG_CQ_DEPTH {
        cqDepth := val % TWO32;
      } else if reg == REG_SQ_DOORBELL {
        sqTail := val % TWO32;
        armed := true;
      } else if reg == REG_IRQ_ACK {
        LowerIrq();
      }
    }

    /** The buffers are different objects. */
    ghost predicate Apart() {
      var a: object, b: object, c: object := sq, cq, devBuf;
      a != b && b != c && a != c
    }
  }

  /** The driver's side: the rings it allocated, its two counters and the device's registers. */
  class Engine {
    const dev: Device
    const sq: array<Sqe>
    const cq: array<Cqe>
    const sqDepth: nat
    const cqDepth: nat
    var sqTail: nat
    var cqHead: nat
    var wakeups: nat

    ghost function View(): Hw
      reads this, dev, dev.sq, dev.cq, dev.devBuf
    {
      dev.View(sqTail, cqHead)
    }

    ghost predicate Valid()
      reads this, dev, dev.sq, dev.cq, dev.devBuf
    {
      && sq == dev.sq && cq == dev.cq && sqDepth == dev.sqDepth && cqDepth == dev.cqDepth
      && dev.Valid() && dev.Apart() && cqDepth > 0
    }

    constructor (dev: Device)
      requires dev.Valid() && dev.Apart() && dev.cqDepth > 0
      ensures Valid() && this.dev == dev && sqTail == cqHead == wakeups == 0
    {
      this.dev, sq, cq, sqDepth, cqDepth := dev, dev.sq, dev.cq, dev.sqDepth, dev.cqDepth;
      sqTail, cqHead, wakeups := 0, 0, 0;
    }

    /** 0 if the submission is in the ring, -EAGAIN (-11) if there is no room. */
    method Submit(sqe: Sqe) returns (ret: int)
      requires Valid()
      modifies this`sqTail, sq
      ensures Valid()
      ensures (View(), ret == 0) == SubmitCall(TWO32, old(View()), sqe)
      ensures ret == if (old(sqTail) - dev.sqHead) % TWO32 < sqDepth then 0 else -11
      ensures ret == 0 ==> sqTail == (old(sqTail) + 1) % TWO32
                           && sq[..] == old(sq[..])[old(sqTail) % sqDepth := sqe]
      ensures ret != 0 ==> sqTail == old(sqTail) && sq[..] == old(sq[..])
    {
      ghost var h := View();
      var head := dev.MmioRead(REG_SQ_HEAD);
      var tail := sqTail;
      if Distance(TWO32, tail, head) >= sqDepth {
        return -11;
      }
      SlotIsMod(TWO32, sqDepth, tail);
      sq[BitAnd(tail, sqDepth - 1)] := sqe;
      sqTail := Advance(TWO32, sqTail, 1);
      assert sq[..] == h.sq[Slot(TWO32, h.sqDepth, h.sqTail) := sqe];
      return 0;
    }

    method Doorbell()
      requires Valid() && sqTail < TWO32
      modifies dev`sqTail, dev`armed, dev`irqStatus, dev`line
      modifies dev`sqDepth, dev`cqDepth, dev`sqBase, dev`cqBase
      ensures Valid() && dev.armed && dev.irqStatus == old(dev.irqStatus) && dev.line == old(dev.line)
      ensures dev.sqBase == old(dev.sqBase) && dev.cqBase == old(dev.cqBase)
      ensures View() == old(View()).(bell := sqTail)
      ensures forall s: State :: s.hw == old(View()) ==> Step(TWO32, s, Event.Doorbell) == s.(hw := View())
    {
      dev.MmioWrite(REG_SQ_DOORBELL, sqTail);
    }

    /** Copy out what is complete, at most `max` entries. */
    method Drain(out: array<Cqe>, max: nat) returns (n: nat)
      requires Valid() && max < TWO64 && out != cq
      requires DrainCount(TWO32, View(), max) <= out.Length
      modifies this`cqHead, out
      ensures Valid() && n <= out.Length
      ensures (View(), out[..n]) == DrainCall(TWO32, old(View()), max)
      ensures n == Min((dev.cqTail - old(cqHead)) % TWO32, max % TWO32)
      ensures forall i :: 0 <= i < n ==> out[i] == cq[(old(cqHead) + i) % TWO32 % cqDepth]
      ensures cqHead == (if n == 0 then old(cqHead) else (old(cqHead) + n) % TWO32)
      ensures out[n..] == old(out[n..])
    {
      ghost var h := View();
      var head := cqHead;
      var tail := dev.MmioRead(REG_CQ_TAIL);
      n := Min(Distance(TWO32, tail, head), max % TWO32);
      if n == 0 {
        return 0;
      }
      CopyEntries(out, n);
      assert View() == h;
      assert out[..n] == Entries(TWO32, h, n) by { EntriesAre(h, n); }
      cqHead := Advance(TWO32, head, n);
      assert View() == h.(cqHead := Advance(TWO32, head, n));
    }

    method CopyEntries(out: array<Cqe>, n: nat)
      requires Valid() && out != cq && n <= out.Length
      modifies out
      ensures forall i :: 0 <= i < n ==> out[i] == cq[(cqHead + i) % TWO32 % cqDepth]
      ensures forall i :: n <= i < out.Length ==> out[i] == old(out[i])
    {
      var i := 0;
      while i < n
        invariant i <= n
        invariant forall j :: 0 <= j < i ==> out[j] == cq[(cqHead + j) % TWO32 % cqDepth]
        invariant forall j :: i <= j < out.Length ==> out[j] == old(out[j])
      {
        SlotIsMod(TWO32, cqDepth, Advance(TWO32, cqHead, i));
        out[i] := cq[BitAnd(Advance(TWO32, cqHead, i), cqDepth - 1)];
        i := i + 1;
      }
    }

    /** The interrupt handler: acknowledge, then wake the waiters. */
    method Irq() returns (handled: bool)
      requires Valid()
      modifies this`wakeups, dev`sqTail, dev`armed, dev`irqStatus, dev`line
      modifies dev`sqDepth, dev`cqDepth, dev`sqBase, dev`cqBase
      ensures Valid() && View() == old(View()) && dev.armed == old(dev.armed)
      ensures handled == (old(dev.irqStatus) != 0)
      ensures dev.irqStatus == 0 && wakeups == old(wakeups) + (if handled then 1 else 0)
      ensures dev.line == (old(dev.line) && (handled ==> dev.msi))
      ensures dev.sqBase == old(dev.sqBase) && dev.cqBase == old(dev.cqBase)
    {
      var status := dev.MmioRead(REG_IRQ_STATUS);
      if status != 0 {
        dev.MmioWrite(REG_IRQ_ACK, status);
        wakeups := wakeups + 1;
        return true;
      }
      return false;
    }
  }

  lemma {:induction false} EntriesAre(h: Hw, n: nat)
    requires RingsOk(TWO32, h) && h.cqDepth > 0 && h.cqHead >= 0
    ensures forall i :: 0 <= i < n ==> Entries(TWO32, h, n)[i] == h.cq[(h.cqHead + i) % TWO32 % h.cqDepth]
  {
    forall i | 0 <= i < n ensures Entries(TWO32, h, n)[i] == h.cq[(h.cqHead + i) % TWO32 % h.cqDepth] {
      SlotIsMod(TWO32, h.cqDepth, Advance(TWO32, h.cqHead, i));
    }
  }

  lemma {:induction false} PowersArePositive(n: nat)
    requires IsPow2(n)
    ensures n > 0
  {
  }

  /** Stepping the lower counter brings unequal counters one closer. */
  lemma {:induction false} StepCloser(a: nat, b: nat)
    requires a < TWO32 && b < TWO32 && a != b
    ensures Advance(TWO32, b, 1) < TWO32
    ensures Distance(TWO32, a, Advance(TWO32, b, 1)) == Distance(TWO32, a, b) - 1
  {
    ModReduceNeg(a, b + 1, TWO32);
    ModReduce(a - b, -1, TWO32);
    if b < a { ModSmall(a - b, TWO32); } else { ModShift(a - b, TWO32, 1); ModSmall(a - b + TWO32, TWO32); }
    ModSmall((a - b) % TWO32 - 1, TWO32);
  }
}
