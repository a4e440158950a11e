/**
 The AT24C256 EEPROM driver over a model of the chip: a page write wraps inside its 64-byte page,
 and the chip does not answer while it is programming.
 */
module Eeprom {
  import opened Words

  const PAGE := 64
  const SIZE := 32768
  const EEPROM_ADDRESS := 0x50
  const WRAP_OFFSET := 65536

  datatype Status = Success | Error

  // ---------------------------------------------------------------- flat memory

  /** Bytes written one after another from `off`; addresses run round the 32 KiB of the chip. */
  function ByteWrites(mem: seq<byte>, off: nat, data: seq<byte>): (m: seq<byte>)
    requires |mem| == SIZE
    ensures |m| == SIZE
  {
    if data == [] then mem
    else
      var n := |data| - 1;
      ByteWrites(mem, off, data[..n])[(off + n) % SIZE := data[n]]
  }

  lemma {:induction false} ByteWritesAppend(mem: seq<byte>, off: nat, a: seq<byte>, b: seq<byte>)
    requires |mem| == SIZE
    ensures ByteWrites(mem, off, a + b) == ByteWrites(ByteWrites(mem, off, a), off + |a|, b)
  {
    if b == [] {
      assert a + b == a;
    } else {
      var n := |b| - 1;
      ByteWritesAppend(mem, off, a, b[..n]);
      assert (a + b)[..|a + b| - 1] == a + b[..n];
    }
  }

  /** Inside the chip they are a flat update: exactly [off, off + |data|) is replaced. */
  lemma {:induction false} ByteWritesFlat(mem: seq<byte>, off: nat, data: seq<byte>)
    requires |mem| == SIZE && off + |data| <= SIZE
    ensures ByteWrites(mem, off, data) == mem[..off] + data + mem[off + |data|..]
  {
    if data != [] {
      var n := |data| - 1;
      ByteWritesFlat(mem, off, data[..n]);
      assert (off + n) % SIZE == off + n;
    }
  }

  /** What the chip does with a page write: the address wraps at the end of its page. */
  function PageWrite(mem: seq<byte>, addr: nat, data: seq<byte>): (m: seq<byte>)
    requires |mem| == SIZE && addr < SIZE
    ensures |m| == SIZE
  {
    if data == [] then mem
    else
      var n := |data| - 1;
      PageWrite(mem, addr, data[..n])[addr / PAGE * PAGE + (addr % PAGE + n) % PAGE := data[n]]
  }

  /** Byte `k` of a page write lands in the page of its address, going round its end; other pages keep theirs. */
  lemma {:induction false} PageWriteLands(mem: seq<byte>, addr: nat, data: seq<byte>, k: nat)
    requires |mem| == 32768 && addr < 32768 && k < |data| <= 64
    ensures var i := addr / 64 * 64 + (addr % 64 + k) % 64; i < 32768 && PageWrite(mem, addr, data)[i] == data[k]
    ensures forall i :: 0 <= i < 32768 && i / 64 != addr / 64 ==> PageWrite(mem, addr, data)[i] == mem[i]
  {
    var n := |data| - 1;
    if k < n {
      PageWriteLands(mem, addr, data[..n], k);
    } else {
      PageWriteElsewhere(mem, addr, data[..n]);
    }
    DifferentPlaces(addr % 64, k, n);
  }

  lemma {:induction false} PageWriteElsewhere(mem: seq<byte>, addr: nat, data: seq<byte>)
    requires |mem| == 32768 && addr < 32768
    ensures forall i :: 0 <= i < 32768 && i / 64 != addr / 64 ==> PageWrite(mem, addr, data)[i] == mem[i]
  {
    if data != [] {
      PageWriteElsewhere(mem, addr, data[..|data| - 1]);
    }
  }

  lemma DifferentPlaces(x: nat, k: nat, n: nat)
    requires x < 64 && k <= n < 64
    ensures (x + k) % 64 == (x + n) % 64 <==> k == n
  {}

  /** A page write that stays in its page writes the bytes where they belong. */
  lemma {:induction false} PageWriteInPage(mem: seq<byte>, off: nat, data: seq<byte>)
    requires |mem| == SIZE && off % PAGE + |data| <= PAGE
    ensures PageWrite(mem, off % SIZE, data) == ByteWrites(mem, off, data)
  {
    if data != [] {
      var n := |data| - 1;
      PageWriteInPage(mem, off, data[..n]);
      InPageAddress(off, n);
    }
  }

  lemma InPageAddress(off: nat, n: nat)
    requires off % PAGE + n < PAGE
    ensures var addr := off % SIZE; addr / PAGE * PAGE + (addr % PAGE + n) % PAGE == (off + n) % SIZE
  {
    var addr := off % SIZE;
    assert addr % PAGE == off % PAGE;
    assert addr == addr / PAGE * PAGE + addr % PAGE;
    assert addr + n < SIZE;
    assert (off + n) % SIZE == addr + n;
  }

  // ---------------------------------------------------------------- the chip on its bus

  class Chip {
    var mem: seq<byte>
    /** How many more times the chip will ignore a poll while it is programming a page. */
    var busy: nat
    /** How many transfers have been lost on the bus, for no reason of the driver's. */
    ghost var lost: nat

    ghost predicate Valid()
      reads this
    {
      |mem| == SIZE
    }

    /**
     A write transfer of a two-byte address and up to a page of data. It can be lost, without effect;
     it fails too when no chip has that bus address or the chip is still busy.
     */
    method WriteTransfer(slave: nat, high: byte, low: byte, data: seq<byte>) returns (status: Status)
      requires Valid() && |data| <= PAGE
      modifies this
      ensures Valid()
      ensures slave != 0x50 || old(busy) > 0 ==> status == Error
      ensures status == Error ==> mem == old(mem) && busy == old(busy)
      ensures lost == old(lost) + if status == Error && slave == EEPROM_ADDRESS && old(busy) == 0 then 1 else 0
      ensures status == Success ==> mem == PageWrite(old(mem), (high * TWO_8 + low) % SIZE, data)
    {
      if slave != EEPROM_ADDRESS || busy > 0 {
        return Error;
      }
      var fails: bool := *;
      if fails {
        lost := lost + 1;
        return Error;
      }
      mem := PageWrite(mem, (high * TWO_8 + low) % SIZE, data);
      busy := *;
      status := Success;
    }

    /** The poll after a page write: answered once the chip has finished programming. */
    method Poll() returns (status: Status)
      requires Valid()
      modifies this`busy
      ensures status == Success <==> old(busy) == 0
      ensures busy == if old(busy) == 0 then 0 else old(busy) - 1
    {
      if busy > 0 {
        busy := busy - 1;
        return Error;
      }
      status := Success;
    }

    /** A sequential read of `count` bytes into `buf` from index `at`. */
    method ReadTransfer(slave: nat, high: byte, low: byte, buf: array<byte>, at: nat, count: nat)
      returns (status: Status)
      requires Valid() && at + count <= buf.Length
      modifies this`lost, buf
      ensures slave != 0x50 || busy > 0 ==> status == Error
      ensures lost == old(lost) + if status == Error && slave == EEPROM_ADDRESS && busy == 0 then 1 else 0
      ensures status == Success ==>
        buf[..] == old(buf[..at]) + ChipBytes(mem, high * TWO_8 + low, count) + old(buf[at + count..])
    {
      if slave != EEPROM_ADDRESS || busy > 0 {
        return Error;
      }
      var fails: bool := *;
      if fails {
        lost := lost + 1;
        return Error;
      }
      var k := 0;
      while k < count
        invariant 0 <= k <= count && lost == old(lost)
        invariant buf[..] == old(buf[..at]) + ChipBytes(mem, high * TWO_8 + low, k) + old(buf[at + k..])
      {
        buf[at + k] := mem[(high * TWO_8 + low + k) % SIZE];
        k := k + 1;
      }
      status := Success;
    }
  }

  /** The bytes the chip delivers from an address on. */
  function ChipBytes(mem: seq<byte>, addr: nat, n: nat): seq<byte>
    requires |mem| == SIZE
  {
    seq(n, k requires 0 <= k < n => mem[(addr + k) % SIZE])
  }

  // ---------------------------------------------------------------- the driver

  /** The driver's range test, in 32-bit arithmetic. */
  predicate RangeAccepted(offset: word, len: word) {
    (offset + len) % TWO_32 <= SIZE
  }

  /** It accepts the requests inside the chip, and also those whose sum wraps to a small value. */
  lemma RangeAcceptedIff(offset: word, len: word)
    ensures RangeAccepted(offset, len) <==>
      offset + len <= 32768 || 0x1_0000_0000 <= offset + len <= 0x1_0000_0000 + 32768
  {}

  /** Pages touched by `n` bytes from `offset`. */
  function Pages(offset: nat, n: nat): nat {
    if n == 0 then 0 else (offset + n - 1) / PAGE - offset / PAGE + 1
  }

  /** How much of the rest goes into the current page. */
  function ChunkLen(offset: nat, left: nat): nat {
    var room := PAGE - offset % PAGE;
    if room > left then left else room
  }

  lemma PagesNext(offset: nat, n: nat, left: nat)
    requires left > 0 && (n == 0 || (offset + n) % PAGE == 0)
    ensures Pages(offset, n + ChunkLen(offset + n, left)) == Pages(offset, n) + 1
    ensures ChunkLen(offset + n, left) > 0 && (offset + n) % PAGE + ChunkLen(offset + n, left) <= PAGE
    ensures ChunkLen(offset + n, left) == left || (offset + n + ChunkLen(offset + n, left)) % PAGE == 0
  {
    var cur, c := offset + n, ChunkLen(offset + n, left);
    assert (cur + c - 1) / PAGE == cur / PAGE;
    if n > 0 {
      assert (cur - 1) / PAGE == cur / PAGE - 1;
    }
  }

  /** A chunk that starts below 64 KiB ends there at the latest, so the 32-bit offset does not wrap. */
  lemma StaysBelowWrap(offset: nat, n: nat)
    requires offset < WRAP_OFFSET && offset % PAGE + n <= PAGE
    ensures offset + n <= WRAP_OFFSET && (offset + n) % TWO_32 == offset + n
  {}

  lemma AddressBytes(offset: nat)
    requires offset < WRAP_OFFSET
    ensures (offset / TWO_8 % TWO_8) * TWO_8 + offset % TWO_8 == offset
  {}

  /** One page write: the transfer, then polling until the chip answers again. */
  method WriteChunk(chip: Chip, curOffset: word, chunk: seq<byte>) returns (status: Status)
    requires chip.Valid() && chip.busy == 0 && curOffset % PAGE + |chunk| <= PAGE
    modifies chip
    ensures chip.Valid() && chip.busy == 0
    ensures status == Success ==> curOffset < WRAP_OFFSET && chip.mem == ByteWrites(old(chip.mem), curOffset, chunk)
    ensures status == Error ==> chip.mem == old(chip.mem)
    ensures chip.lost == old(chip.lost) + if status == Error && curOffset < WRAP_OFFSET then 1 else 0
  {
    var slave := EEPROM_ADDRESS;
    if curOffset >= WRAP_OFFSET {
      slave := slave + 1;
    }
    status := chip.WriteTransfer(slave, curOffset / TWO_8 % TWO_8, curOffset % TWO_8, chunk);
    if status != Success {
      return;
    }
    AddressBytes(curOffset);
    PageWriteInPage(old(chip.mem), curOffset, chunk);
    while true
      invariant chip.Valid() && chip.mem == ByteWrites(old(chip.mem), curOffset, chunk)
      invariant chip.lost == old(chip.lost)
      decreases chip.busy
    {
      var writeStatus := chip.Poll();
      if writeStatus == Success {
        break;
      }
    }
  }

  lemma PrefixNext(mem: seq<byte>, off: nat, data: seq<byte>, n: nat, c: nat)
    requires |mem| == SIZE && n + c <= |data|
    ensures ByteWrites(ByteWrites(mem, off, data[..n]), off + n, data[n..n + c]) == ByteWrites(mem, off, data[..n + c])
  {
    ByteWritesAppend(mem, off, data[..n], data[n..n + c]);
    assert data[..n] + data[n..n + c] == data[..n + c];
  }

  /** As much as fits in the current page. */
  method NextChunk(curOffset: word, left: nat) returns (curWriteLen: nat)
    ensures curWriteLen == ChunkLen(curOffset, left)
  {
    curWriteLen := PAGE;
    if curOffset % PAGE != 0 {
      curWriteLen := PAGE - curOffset % PAGE;
    }
    if curWriteLen > left {
      curWriteLen := left;
    }
  }

  /** The page loop of the write. */
  method WritePages(chip: Chip, offset: word, buf: array<byte>, len: word)
    returns (status: Status, written: nat, ghost chunks: nat)
    requires chip.Valid() && chip.busy == 0 && len <= buf.Length
    modifies chip
    ensures chip.Valid() && chip.busy == 0
    ensures written <= len && chip.mem == ByteWrites(old(chip.mem), offset, buf[..written])
    ensures chunks == Pages(offset, written)
    ensures status == Success ==> written == len && (len == 0 || offset + len <= WRAP_OFFSET)
    ensures status == Success ==> chip.lost == old(chip.lost)
    ensures status == Error ==> chip.lost > old(chip.lost) || offset + len > WRAP_OFFSET
    ensures chip.lost >= old(chip.lost)
  {
    ghost var data := buf[..];
    var left: nat, curOffset: word := len, offset;
    status, written, chunks := Success, 0, 0;
    while left > 0
      invariant written <= len <= buf.Length && written + left == len && buf[..] == data
      invariant curOffset == offset + written && (written > 0 ==> curOffset <= WRAP_OFFSET)
      invariant left == 0 || written == 0 || (offset + written) % PAGE == 0
      invariant chip.Valid() && chip.busy == 0 && status == Success && chip.lost == old(chip.lost)
      invariant chip.mem == ByteWrites(old(chip.mem), offset, data[..written])
      invariant chunks == Pages(offset, written)
    {
      var curWriteLen := NextChunk(curOffset, left);
      PagesNext(offset, written, left);
      status := WriteChunk(chip, curOffset, buf[written..written + curWriteLen]);
      if status != Success {
        break;
      }
      PrefixNext(old(chip.mem), offset, data, written, curWriteLen);
      StaysBelowWrap(curOffset, curWriteLen);
      left := left - curWriteLen;
      curOffset := (curOffset + curWriteLen) % TWO_32;
      written, chunks := written + curWriteLen, chunks + 1;
    }
    assert buf[..written] == data[..written];
  }

  /**
   Page by page write. `written` bytes and `chunks` page writes were done. Whatever happens, memory has
   exactly the first `written` bytes of the buffer in place and is otherwise as before. Success means all
   of them, one page write for each page touched; it comes exactly when the arguments are good, the range
   is inside the chip and no transfer was lost.
   */
  method Write(chip: Chip, handleOk: bool, offset: word, buf: array?<byte>, len: word)
    returns (status: Status, ghost written: nat, ghost chunks: nat)
    requires chip.Valid() && chip.busy == 0
    requires buf != null ==> len <= buf.Length
    modifies chip
    ensures chip.Valid() && chip.busy == 0
    ensures !handleOk || buf == null || !RangeAccepted(offset, len) ==> status == Error && written == 0
    ensures if buf == null then written == 0 && chip.mem == old(chip.mem)
            else written <= len && chip.mem == ByteWrites(old(chip.mem), offset, buf[..written])
    ensures chunks == if written == 0 then 0 else (offset + written - 1) / 64 - offset / 64 + 1
    ensures status == Success ==> written == len
    ensures chip.lost >= old(chip.lost)
    ensures status == Success <==>
      handleOk && buf != null && offset + len <= 32768 && chip.lost == old(chip.lost)
  {
    written, chunks := 0, 0;
    status := Success;
    if !handleOk || buf == null {
      status := Error;
    }
    if (offset + len) % TWO_32 > SIZE {
      status := Error;
    }
    if status == Success {
      status, written, chunks := WritePages(chip, offset, buf, len);
      RangeAcceptedIff(offset, len);
    }
  }

  /**
   Read `len` bytes from `offset`. Success means every byte of the buffer is the chip's; inside an idle chip
   only a lost transfer prevents it.
   */
  method Read(chip: Chip, handleOk: bool, offset: word, buf: array?<byte>, len: word) returns (status: Status)
    requires chip.Valid()
    requires buf != null ==> len <= buf.Length
    modifies buf, chip`lost
    ensures !handleOk || buf == null || !RangeAccepted(offset, len) ==>
      status == Error && (buf != null ==> buf[..] == old(buf[..]))
    ensures status == Success ==>
      buf != null && buf[..] == ChipBytes(chip.mem, offset, len) + old(buf[len..])
    ensures chip.lost >= old(chip.lost)
    ensures handleOk && buf != null && offset + len <= 32768 && chip.busy == 0 && chip.lost == old(chip.lost) ==>
      status == Success
  {
    status := Success;
    if !handleOk || buf == null {
      status := Error;
    }
    if (offset + len) % TWO_32 > SIZE {
      status := Error;
    }
    if status == Success {
      var readLen, readOffset, remainderOffset: nat := 0, 0, offset;
      if offset < WRAP_OFFSET {
        readLen := len;
        if (readLen + offset) % TWO_32 > WRAP_OFFSET {
          readLen := WRAP_OFFSET - offset;
        }
        readOffset := offset;
        remainderOffset := WRAP_OFFSET;
      }
      var remainderLen := len - readLen;
      if readLen != 0 {
        AddressBytes(readOffset);
        status := chip.ReadTransfer(EEPROM_ADDRESS, readOffset / TWO_8 % TWO_8, readOffset % TWO_8, buf, 0, readLen);
      }
      if status == Success && remainderLen != 0 {
        status := chip.ReadTransfer(EEPROM_ADDRESS + 1, remainderOffset / TWO_8 % TWO_8, remainderOffset % TWO_8,
                                    buf, readLen, remainderLen);
      }
    }
  }

  // ---------------------------------------------------------------- what a caller gets

  /** A write that succeeded is a flat update of [offset, offset + len), whatever the page boundaries it crossed. */
  lemma WriteIsFlatUpdate(before: seq<byte>, after: seq<byte>, offset: nat, data: seq<byte>)
    requires |before| == SIZE && offset + |data| <= SIZE && after == ByteWrites(before, offset, data)
    ensures after[offset..offset + |data|] == data
    ensures forall i :: 0 <= i < SIZE && !(offset <= i < offset + |data|) ==> after[i] == before[i]
  {
    ByteWritesFlat(before, offset, data);
  }

  /** Reading the range back delivers what was written. */
  lemma ReadBack(before: seq<byte>, offset: nat, data: seq<byte>)
    requires |before| == SIZE && offset + |data| <= SIZE
    ensures ChipBytes(ByteWrites(before, offset, data), offset, |data|) == data
  {
    ByteWritesFlat(before, offset, data);
  }

  /** Write, then read the same range: unless a transfer is lost, both succeed and the bytes come back. */
  method WriteThenRead(chip: Chip, offset: word, source: array<byte>, target: array<byte>, len: word)
    returns (written: Status, read: Status)
    requires chip.Valid() && chip.busy == 0 && len <= source.Length && len <= target.Length && source != target
    modifies chip, target
    ensures written == Success && read == Success ==> target[..len] == source[..len]
    ensures offset + len <= 32768 && chip.lost == old(chip.lost) ==> written == Success && read == Success
  {
    ghost var before := chip.mem;
    ghost var n, chunks;
    written, n, chunks := Write(chip, true, offset, source, len);
    read := Read(chip, true, offset, target, len);
    if written == Success && read == Success {
      assert n == len;
      ReadBack(before, offset, source[..len]);
      assert target[..len] == ChipBytes(chip.mem, offset, len);
    }
  }
}
