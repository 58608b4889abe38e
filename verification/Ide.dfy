/** The ATA driver of device/ide.c: the command/interrupt handshake and the chunked transfers. */
module Ide {
  import opened Bitmaps

  // ----- handshake: one channel, whose lock the driver holds around a transfer -----

  datatype Phase =
    | Idle        // outside any transfer
    | Flagged     // cmd_out has set expecting_intr, the command is not written yet
    | Issued      // command written, sema_down not entered
    | Asleep      // in sema_down, on the waiters list
    | Awake       // popped by the handler, back at the loop test next
    | Done        // past sema_down

  /** downs, ups and cmds count completed sema_down calls, sema_up calls and commands begun. */
  datatype Channel = Channel(expecting: bool, value: nat, phase: Phase, cmds: nat, ups: nat, downs: nat)

  datatype Event =
    | SetExpecting | WriteCmd | DownTest | Finish
    | DiskIntr       // any disk interrupt, asked for or not

  predicate Can(c: Channel, e: Event)
  {
    match e
    case SetExpecting => c.phase == Idle || c.phase == Done
    case WriteCmd => c.phase == Flagged
    case DownTest => c.phase == Issued || c.phase == Awake
    case Finish => c.phase == Done
    case DiskIntr => true
  }

  function After(c: Channel, e: Event): Channel
    requires Can(c, e)
  {
    match e
    case SetExpecting => c.(expecting := true, phase := Flagged, cmds := c.cmds + 1)
    case WriteCmd => c.(phase := Issued)
    case DownTest =>
      if c.value == 0 then c.(phase := Asleep)
      else c.(value := c.value - 1, phase := Done, downs := c.downs + 1)
    case Finish => c.(phase := Idle)
    case DiskIntr =>
      if c.expecting then
        c.(expecting := false, value := c.value + 1, ups := c.ups + 1,
           phase := if c.phase == Asleep then Awake else c.phase)
      else c
  }

  /** The ASSERTs of sema_down and sema_up on disk_done. */
  predicate ChannelAsserts(c: Channel, e: Event)
    requires Can(c, e)
  {
    match e
    case DownTest => c.value != 0 ==> c.value - 1 == 0
    case DiskIntr => c.expecting ==> c.value == 0 && c.value + 1 == 1
    case _ => true
  }

  predicate ChannelInv(c: Channel)
  {
    c.value <= 1 && (c.expecting ==> c.value == 0) &&
    c.cmds == c.ups + (if c.expecting then 1 else 0) &&
    c.ups == c.downs + c.value &&
    (c.phase == Idle || c.phase == Done <==> c.cmds == c.downs) &&
    (c.phase == Asleep ==> c.expecting)     // nobody sleeps past its interrupt
  }

  const QUIET := Channel(false, 0, Idle, 0, 0, 0)

  function Play(c: Channel, es: seq<Event>): Channel
  {
    if es == [] then c
    else
      var b := Play(c, es[..|es| - 1]);
      var e := es[|es| - 1];
      if Can(b, e) then After(b, e) else b
  }

  /** For every arrival pattern of interrupts, spurious ones included: no ASSERT fires, and when
      the driver is between commands each command has had exactly one up and one down. */
  lemma {:induction false} HandshakeSafe(es: seq<Event>, e: Event)
    ensures var c := Play(QUIET, es);
            ChannelInv(c) && (Can(c, e) ==> ChannelAsserts(c, e)) &&
            (c.phase == Idle || c.phase == Done ==> c.cmds == c.ups == c.downs && !c.expecting && c.value == 0)
  {
    if es != [] {
      HandshakeSafe(es[..|es| - 1], es[|es| - 1]);
    }
  }

  /** A driver that waits is always released by the next interrupt. */
  lemma SleeperIsWoken(es: seq<Event>)
    ensures var c := Play(QUIET, es);
            c.phase == Asleep ==> After(c, DiskIntr).phase == Awake && After(After(c, DiskIntr), DownTest).phase == Done
  {
    HandshakeSafe(es, DiskIntr);
  }

  // ----- registers and data port -----

  const MAX_LBA := 80 * 1024 * 1024 / 512 - 1
  const SECTOR := 512
  const BIT_DEV_MBS := 0xa0
  const BIT_DEV_LBA := 0x40
  const BIT_DEV_DEV := 0x10
  const CMD_READ_SECTOR := 0x20
  const CMD_WRITE_SECTOR := 0x30

  /** The task-file registers of a channel, each one byte wide. */
  datatype Regs = Regs(cnt: nat, lbaL: nat, lbaM: nat, lbaH: nat, dev: nat)

  /** outb keeps the low byte. */
  function Low8(x: nat): nat
  {
    x % 256
  }

  function SelectSector(devNo: nat, lba: nat, secCnt: nat): Regs
  {
    Regs(Low8(secCnt), Low8(lba), Low8(lba / 0x100), Low8(lba / 0x10000),
         // the flag bits are above bit 3, so for lba < 2^28 the | of the source is a sum
         Low8(BIT_DEV_MBS + BIT_DEV_LBA + (if devNo == 1 then BIT_DEV_DEV else 0) + lba / 0x1000000))
  }

  // What the drive makes of them (READ/WRITE SECTOR(S), clause 8 of ATA/ATAPI-6).

  /** Bit 6 of the device register says that the address is a sector number, and not cylinder, head
      and sector; older drives want bits 5 and 7 set. */
  predicate LbaMode(r: Regs)
  {
    r.dev / 32 % 8 == 1 + 2 + 4
  }

  function RegsCount(r: Regs): nat
  {
    if r.cnt == 0 then 256 else r.cnt
  }

  function RegsLba(r: Regs): nat
    requires LbaMode(r)
  {
    r.dev % 16 * 0x1000000 + r.lbaH * 0x10000 + r.lbaM * 0x100 + r.lbaL
  }

  function RegsDrive(r: Regs): nat
  {
    r.dev / 16 % 2
  }

  /** The byte count read_from_sector and write2sector derive from the uint8_t they are given. */
  function PortBytes(secCnt: nat): nat
  {
    if Low8(secCnt) == 0 then 256 * 512 else Low8(secCnt) * 512
  }

  /** A chunk of up to 256 sectors survives both narrow channels: the drive is asked for exactly
      that range, and the data port moves exactly its bytes, 256 travelling as 0. */
  lemma ChunkExact(devNo: nat, lba: nat, secCnt: nat)
    requires devNo <= 1 && lba <= MAX_LBA && 1 <= secCnt <= 256
    ensures var r := SelectSector(devNo, lba, secCnt);
            LbaMode(r) && RegsCount(r) == secCnt && RegsLba(r) == lba && RegsDrive(r) == devNo
    ensures PortBytes(secCnt) == secCnt * SECTOR
  {
    assert lba / 0x1000000 == 0;
    assert lba == lba / 0x10000 * 0x10000 + lba / 0x100 % 0x100 * 0x100 + lba % 0x100;
  }

  /** Outside the chunk sizes the driver uses, the count is lost: 257 sectors would move one. */
  lemma ChunkLimit()
    ensures RegsCount(SelectSector(0, 0, 257)) == 1 && PortBytes(257) == SECTOR
  {
  }

  /** The ASSERTs of lines 88 and 151 over all chunks of a transfer. */
  predicate RangeAsserts(lba: nat, secCnt: nat)
  {
    secCnt > 0 && forall done :: 0 <= done < secCnt && done % 256 == 0 ==> lba + done <= MAX_LBA
  }

  /** They look at where each chunk starts, so they pass exactly when the last chunk starts on
      the disk: a transfer inside the disk passes, and so does one that runs off its end. */
  lemma RangeAssertsIff(lba: nat, secCnt: nat)
    requires secCnt > 0
    ensures RangeAsserts(lba, secCnt) <==> lba + (secCnt - 1) / 256 * 256 <= MAX_LBA
    ensures lba + secCnt <= MAX_LBA + 1 ==> RangeAsserts(lba, secCnt)
    ensures RangeAsserts(MAX_LBA, 2)
  {
    var last := (secCnt - 1) / 256 * 256;
    assert last % 256 == 0 && last < secCnt;
    forall done | 0 <= done < secCnt && done % 256 == 0 ensures done <= last {}
  }

  /** r is a with the n bytes of src from q written over it at p. */
  ghost predicate Copied(r: seq<Byte>, a: seq<Byte>, p: nat, src: seq<Byte>, q: nat, n: nat)
  {
    |r| == |a| && p + n <= |a| && q + n <= |src| &&
    forall i :: 0 <= i < |a| ==> r[i] == if p <= i < p + n then src[q + (i - p)] else a[i]
  }

  lemma CopiedOn(r: seq<Byte>, m: seq<Byte>, a: seq<Byte>, p: nat, src: seq<Byte>, q: nat, done: nat, n: nat)
    requires Copied(m, a, p, src, q, done) && Copied(r, m, p + done, src, q + done, n)
    ensures Copied(r, a, p, src, q, done + n)
  {
  }

  /** Reading back the place written gives what was written; any disjoint place is as before. */
  lemma CopiedReads(r: seq<Byte>, a: seq<Byte>, p: nat, src: seq<Byte>, q: nat, n: nat, at: nat, len: nat)
    requires Copied(r, a, p, src, q, n) && at + len <= |a|
    ensures at == p && len == n ==> r[at..at + len] == src[q..q + n]
    ensures at + len <= p || p + n <= at ==> r[at..at + len] == a[at..at + len]
  {
  }

  /** One channel with its two drives. busy_wait is taken to succeed. */
  class Controller {
    const master: array<Byte>
    const slave: array<Byte>
    var regs: Regs
    var command: nat

    ghost predicate Valid()
    {
      master != slave && master.Length == slave.Length == (MAX_LBA + 1) * SECTOR
    }

    constructor (m: array<Byte>, s: array<Byte>)
      requires m != s && m.Length == s.Length == (MAX_LBA + 1) * SECTOR
      ensures Valid() && master == m && slave == s
    {
      master, slave, regs, command := m, s, Regs(0, 0, 0, 0, 0), 0;
    }

    function Disk(devNo: nat): array<Byte>
    {
      if devNo == 1 then slave else master
    }

    method SelectRegs(devNo: nat, lba: nat, secCnt: nat)
      requires lba <= MAX_LBA
      modifies this`regs
      ensures regs == SelectSector(devNo, lba, secCnt)
    {
      regs := SelectSector(devNo, lba, secCnt);
    }

    method CmdOut(cmd: nat)
      modifies this`command
      ensures command == cmd
    {
      command := cmd;
    }

    /** insw after a read command (20h): the drive supplies the bytes of the sectors its registers
        name, the port takes the first `size` of them. */
    method PortIn(buf: array<Byte>, pos: nat, size: nat)
      requires command == 0x20 && LbaMode(regs)
      requires Valid() && size <= RegsCount(regs) * SECTOR && pos + size <= buf.Length
      requires RegsLba(regs) * SECTOR + size <= (MAX_LBA + 1) * SECTOR
      requires buf != master && buf != slave
      modifies buf
      ensures Copied(buf[..], old(buf[..]), pos, Disk(RegsDrive(regs))[..], RegsLba(regs) * SECTOR, size)
    {
      var from, p := Disk(RegsDrive(regs)), RegsLba(regs) * SECTOR;
      for k := 0 to size
        invariant Copied(buf[..], old(buf[..]), pos, from[..], p, k)
      {
        buf[pos + k] := from[p + k];
      }
    }

    /** outsw after a write command (30h). */
    method PortOut(buf: array<Byte>, pos: nat, size: nat)
      requires command == 0x30 && LbaMode(regs)
      requires Valid() && size <= RegsCount(regs) * SECTOR && pos + size <= buf.Length
      requires RegsLba(regs) * SECTOR + size <= (MAX_LBA + 1) * SECTOR
      requires buf != master && buf != slave
      modifies Disk(RegsDrive(regs))
      ensures Copied(Disk(RegsDrive(regs))[..], old(Disk(RegsDrive(regs))[..]), RegsLba(regs) * SECTOR,
                     buf[..], pos, size)
    {
      var to, p := Disk(RegsDrive(regs)), RegsLba(regs) * SECTOR;
      for k := 0 to size
        invariant Copied(to[..], old(to[..]), p, buf[..], pos, k)
      {
        to[p + k] := buf[pos + k];
      }
    }

    /** Lines 168 to 188: one command for at most 256 sectors and its data. */
    method ReadChunk(devNo: nat, lba: nat, buf: array<Byte>, pos: nat, secsOp: nat)
      requires Valid() && devNo <= 1 && 1 <= secsOp <= 256 && lba + secsOp <= MAX_LBA + 1
      requires pos + secsOp * SECTOR <= buf.Length && buf != master && buf != slave
      modifies this, buf
      ensures Copied(buf[..], old(buf[..]), pos, Disk(devNo)[..], lba * SECTOR, secsOp * SECTOR)
    {
      ChunkExact(devNo, lba, secsOp);
      SelectRegs(devNo, lba, secsOp);
      CmdOut(CMD_READ_SECTOR);
      PortIn(buf, pos, PortBytes(secsOp));
    }

    method WriteChunk(devNo: nat, lba: nat, buf: array<Byte>, pos: nat, secsOp: nat)
      requires Valid() && devNo <= 1 && 1 <= secsOp <= 256 && lba + secsOp <= MAX_LBA + 1
      requires pos + secsOp * SECTOR <= buf.Length && buf != master && buf != slave
      modifies this, Disk(devNo)
      ensures Copied(Disk(devNo)[..], old(Disk(devNo)[..]), lba * SECTOR, buf[..], pos, secsOp * SECTOR)
    {
      ChunkExact(devNo, lba, secsOp);
      SelectRegs(devNo, lba, secsOp);
      CmdOut(CMD_WRITE_SECTOR);
      PortOut(buf, pos, PortBytes(secsOp));
    }

    /** ide_read: exactly the sectors [lba, lba + secCnt), in order, whatever the chunking. */
    method IdeRead(devNo: nat, lba: nat, buf: array<Byte>, off: nat, secCnt: nat)
      requires Valid() && devNo <= 1 && secCnt > 0 && lba + secCnt <= MAX_LBA + 1
      requires off + secCnt * SECTOR <= buf.Length && buf != master && buf != slave
      modifies this, buf
      ensures Copied(buf[..], old(buf[..]), off, Disk(devNo)[..], lba * SECTOR, secCnt * SECTOR)
    {
      ghost var d, was := Disk(devNo)[..], buf[..];
      var secsDone := 0;
      while secsDone < secCnt
        invariant 0 <= secsDone <= secCnt
        invariant Disk(devNo)[..] == d
        invariant Copied(buf[..], was, off, d, lba * SECTOR, secsDone * SECTOR)
      {
        var secsOp := if secsDone + 256 <= secCnt then 256 else secCnt - secsDone;
        ghost var mid := buf[..];
        ReadChunk(devNo, lba + secsDone, buf, off + secsDone * SECTOR, secsOp);
        CopiedOn(buf[..], mid, was, off, d, lba * SECTOR, secsDone * SECTOR, secsOp * SECTOR);
        secsDone := secsDone + secsOp;
      }
    }

    /** ide_write: those sectors of that drive become the buffer's bytes, nothing else changes. */
    method IdeWrite(devNo: nat, lba: nat, buf: array<Byte>, off: nat, secCnt: nat)
      requires Valid() && devNo <= 1 && secCnt > 0 && lba + secCnt <= MAX_LBA + 1
      requires off + secCnt * SECTOR <= buf.Length && buf != master && buf != slave
      modifies this, Disk(devNo)
      ensures Copied(Disk(devNo)[..], old(Disk(devNo)[..]), lba * SECTOR, buf[..], off, secCnt * SECTOR)
    {
      ghost var b, was := buf[..], Disk(devNo)[..];
      var secsDone := 0;
      while secsDone < secCnt
        invariant 0 <= secsDone <= secCnt
        invariant buf[..] == b
        invariant Copied(Disk(devNo)[..], was, lba * SECTOR, b, off, secsDone * SECTOR)
      {
        var secsOp := if secsDone + 256 <= secCnt then 256 else secCnt - secsDone;
        ghost var mid := Disk(devNo)[..];
        WriteChunk(devNo, lba + secsDone, buf, off + secsDone * SECTOR, secsOp);
        CopiedOn(Disk(devNo)[..], mid, was, lba * SECTOR, b, off, secsDone * SECTOR, secsOp * SECTOR);
        secsDone := secsDone + secsOp;
      }
    }

    /** Write then read gives the bytes back. */
    method WriteThenRead(devNo: nat, lba: nat, src: array<Byte>, dst: array<Byte>, secCnt: nat)
      requires Valid() && devNo <= 1 && secCnt > 0 && lba + secCnt <= MAX_LBA + 1
      requires src.Length == dst.Length == secCnt * SECTOR && src != dst
      requires {src, dst} !! {master, slave}
      modifies this, Disk(devNo), dst
      ensures dst[..] == src[..]
    {
      IdeWrite(devNo, lba, src, 0, secCnt);
      IdeRead(devNo, lba, dst, 0, secCnt);
    }
  }
}
