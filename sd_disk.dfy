/** disk_read, disk_write and disk_ioctl over the scripted card. Each
    function takes the script `s`, the byte-clock `c` at which the call
    starts and the session state (Stat, CardType, the socket inputs), and
    gives the result code, the new Stat, the bytes put on MOSI and what the
    call stores into the caller's buffer. */
module SdDisk {
  import opened SdDefs
  import opened SdWire
  import opened SdFrame
  import opened SdCommand
  import opened SdBlock
  import opened SdStatus

  /** The transfer part of a read or write: how many blocks were still
      outstanding when it ended (0 on success, as the source's `count`), the
      bytes stored into the buffer from its start (always empty for a write,
      which stores nothing), and the MOSI bytes. */
  datatype Transfer = Transfer(left: nat, data: seq<byte>, out: seq<byte>)

  /** The result of disk_read or disk_write; `data` is what a read stores,
      and is empty for a write. */
  datatype Outcome = Outcome(res: DResult, stat: byte, out: seq<byte>, data: seq<byte>)

  /** What disk_ioctl stores through its buffer pointer: nothing, a DWORD, or
      a value C leaves undefined (a shift by a negative count). */
  datatype Stored = Nothing | Dword(v: nat) | Undefined

  /** The result of disk_ioctl. */
  datatype Control = Control(res: DResult, stat: byte, out: seq<byte>, stored: Stored)

  /** The 512-byte chunk `k` of a caller's buffer. */
  function Chunk(data: seq<byte>, k: nat): (r: seq<byte>)
    requires (k + 1) * 512 <= |data|
    ensures |r| == SectorSize
  {
    data[k * 512..(k + 1) * 512]
  }

  // ---------------------------------------------------------------- read

  /** The multi-block read loop: up to `count` data packets of 512 bytes
      into consecutive slices of the buffer, stopping at the first packet
      that fails. */
  function ReadBlocks(s: seq<byte>, c: nat, count: nat): (r: Transfer)
    ensures r.left <= count && |r.data| == (count - r.left) * 512
    decreases count
  {
    if count == 0 then Transfer(0, [], [])
    else
      var r := ReadPacket(s, c, SectorSize);
      if r.val.None? then Transfer(count, [], r.out)
      else
        var rest := ReadBlocks(s, c + |r.out|, count - 1);
        Transfer(rest.left, r.val.value + rest.data, r.out + rest.out)
  }

  /** A single-block read: READ_SINGLE_BLOCK, then one data packet. */
  function ReadSingle(s: seq<byte>, c: nat, addr: u32): (r: Transfer)
    ensures r.left <= 1 && |r.data| == (1 - r.left) * 512
  {
    var q := Command(s, c, CmdReadSingleBlock, addr);
    if q.r != 0 then Transfer(1, [], q.out)
    else
      var r := ReadPacket(s, c + |q.out|, SectorSize);
      if r.val.None? then Transfer(1, [], q.out + r.out)
      else Transfer(0, r.val.value, q.out + r.out)
  }

  /** A multi-block read: READ_MULTIPLE_BLOCK, the packet loop, and
      STOP_TRANSMISSION once the command was accepted. */
  function ReadMulti(s: seq<byte>, c: nat, addr: u32, count: nat): (r: Transfer)
    ensures r.left <= count && |r.data| == (count - r.left) * 512
  {
    var q := Command(s, c, CmdReadMultBlock, addr);
    if q.r != 0 then Transfer(count, [], q.out)
    else
      var b := ReadBlocks(s, c + |q.out|, count);
      var stop := Command(s, c + |q.out| + |b.out|, CmdStopTransmission, 0);
      Transfer(b.left, b.data, q.out + b.out + stop.out)
  }

  /** The transfer of disk_read: the address conversion, then a single- or
      a multi-block read. */
  function ReadTransfer(s: seq<byte>, c: nat, cardType: byte, sector: u32, count: byte): (r: Transfer)
    requires count != 0
    ensures r.left <= count as nat && |r.data| == (count as nat - r.left) * 512
  {
    var addr := SectorAddress(sector, cardType);
    if count == 1 then ReadSingle(s, c, addr) else ReadMulti(s, c, addr, count as nat)
  }

  /** disk_read: the status gate, the parameter gate, the address
      conversion, the transfer and the closing deselect clock. */
  function Read(s: seq<byte>, c: nat, stat: byte, cardType: byte, drv: byte, inserted: bool, wp: bool,
                sector: u32, count: byte): (r: Outcome)
    ensures |r.data| <= count as nat * 512
    ensures r.res == ResOk <==> |r.data| == count as nat * 512 && count != 0 && r.stat & StaNoInit == 0
  {
    var st := Status(s, c, stat, drv, inserted, wp);
    if st.val & StaNoInit != 0 then Outcome(ResNotRdy, st.val, st.out, [])
    else if count == 0 then Outcome(ResParErr, st.val, st.out, [])
    else
      var x := ReadTransfer(s, c + |st.out|, cardType, sector, count);
      Outcome(if x.left == 0 then ResOk else ResError, st.val, st.out + x.out + FFs(1), x.data)
  }

  // ---------------------------------------------------------------- write

  /** The multi-block write loop from chunk `k` on: up to `count` chunks
      each sent with the 0xFC token, stopping at the first one rejected. */
  function WriteBlocks(s: seq<byte>, c: nat, data: seq<byte>, k: nat, count: nat): (r: Transfer)
    requires (k + count) * 512 <= |data|
    ensures r.left <= count
    decreases count
  {
    if count == 0 then Transfer(0, [], [])
    else
      var x := WritePacket(s, c, Chunk(data, k), TokenStartMulti);
      if !x.val then Transfer(count, [], x.out)
      else
        var rest := WriteBlocks(s, c + |x.out|, data, k + 1, count - 1);
        Transfer(rest.left, [], x.out + rest.out)
  }

  /** A single-block write: WRITE_BLOCK, then one packet with token 0xFE. */
  function WriteSingle(s: seq<byte>, c: nat, data: seq<byte>, addr: u32): Transfer
    requires SectorSize <= |data|
  {
    var q := Command(s, c, CmdWriteSingleBlock, addr);
    if q.r != 0 then Transfer(1, [], q.out)
    else
      var x := WritePacket(s, c + |q.out|, Chunk(data, 0), TokenStartBlock);
      Transfer(if x.val then 0 else 1, [], q.out + x.out)
  }

  /** The ACMD23 hint of a multi-block write, sent to SD cards only; its
      reply is not looked at. */
  function EraseHint(s: seq<byte>, c: nat, cardType: byte, count: byte): seq<byte> {
    if cardType & CtSdc != 0 then Command(s, c, AcmdSetWrBlkEraseCount, count as u32).out else []
  }

  /** A multi-block write: the hint, WRITE_MULTIPLE_BLOCK, the chunk loop,
      and the STOP_TRAN token once the command was accepted; a rejected
      STOP_TRAN leaves one block outstanding. */
  function WriteMulti(s: seq<byte>, c: nat, data: seq<byte>, addr: u32, cardType: byte, count: byte): Transfer
    requires count as nat * 512 <= |data|
  {
    var pre := EraseHint(s, c, cardType, count);
    var q := Command(s, c + |pre|, CmdWriteMultBlock, addr);
    if q.r != 0 then Transfer(count as nat, [], pre + q.out)
    else
      var b := WriteBlocks(s, c + |pre| + |q.out|, data, 0, count as nat);
      var close := WritePacket(s, c + |pre| + |q.out| + |b.out|, [], TokenStopTran);
      Transfer(if close.val then b.left else 1, [], pre + q.out + b.out + close.out)
  }

  /** The transfer of disk_write: the address conversion, then a single- or
      a multi-block write. */
  function WriteTransfer(s: seq<byte>, c: nat, cardType: byte, data: seq<byte>, sector: u32, count: byte): Transfer
    requires count != 0 && count as nat * 512 <= |data|
  {
    var addr := SectorAddress(sector, cardType);
    if count == 1 then WriteSingle(s, c, data, addr) else WriteMulti(s, c, data, addr, cardType, count)
  }

  /** disk_write: the status gate, the write-protect gate, the parameter
      gate, the address conversion, the transfer and the deselect clock. */
  function Write(s: seq<byte>, c: nat, stat: byte, cardType: byte, drv: byte, inserted: bool, wp: bool,
                 data: seq<byte>, sector: u32, count: byte): Outcome
    requires count as nat * 512 <= |data|
  {
    var st := Status(s, c, stat, drv, inserted, wp);
    if st.val & StaNoInit != 0 then Outcome(ResNotRdy, st.val, st.out, [])
    else if st.val & StaProtect != 0 then Outcome(ResWrPrt, st.val, st.out, [])
    else if count == 0 then Outcome(ResParErr, st.val, st.out, [])
    else
      var x := WriteTransfer(s, c + |st.out|, cardType, data, sector, count);
      Outcome(if x.left == 0 then ResOk else ResError, st.val, st.out + x.out + FFs(1), [])
  }

  // ---------------------------------------------------------------- ioctl

  /** The GET_SECTOR_COUNT value of a CSD. */
  function CsdStored(csd: seq<byte>): Stored
    requires |csd| == 16
  {
    match CsdSectorCount(csd)
    case Some(n) => Dword(n)
    case None => Undefined
  }

  /** What one control code does once past the status gate: the result,
      the bytes clocked before the final deselect, and what is stored. */
  datatype Answer = Answer(res: DResult, out: seq<byte>, stored: Stored)

  /** The control codes of disk_ioctl: CTRL_SYNC waits for the card through
      a select, released at once on success; GET_SECTOR_COUNT reads the CSD
      (SEND_CSD and a 16-byte packet); GET_BLOCK_SIZE is 128 sectors; any
      other code is a parameter error. */
  function Dispatch(s: seq<byte>, c: nat, ctrl: byte): Answer {
    if ctrl == CtrlSync then
      var sel := Select(s, c);
      if sel.val then Answer(ResOk, sel.out + FFs(1), Nothing) else Answer(ResError, sel.out, Nothing)
    else if ctrl == GetSectorCount then
      var q := Command(s, c, CmdSendCsd, 0);
      if q.r != 0 then Answer(ResError, q.out, Nothing)
      else
        var r := ReadPacket(s, c + |q.out|, 16);
        if r.val.None? then Answer(ResError, q.out + r.out, Nothing)
        else Answer(ResOk, q.out + r.out, CsdStored(r.val.value))
    else if ctrl == GetBlockSize then Answer(ResOk, [], Dword(128))
    else Answer(ResParErr, [], Nothing)
  }

  /** disk_ioctl: the status gate, then the control code, then a deselect
      clock whatever the code. */
  function Ioctl(s: seq<byte>, c: nat, stat: byte, drv: byte, inserted: bool, wp: bool, ctrl: byte): Control {
    var st := Status(s, c, stat, drv, inserted, wp);
    if st.val & StaNoInit != 0 then Control(ResNotRdy, st.val, st.out, Nothing)
    else
      var d := Dispatch(s, c + |st.out|, ctrl);
      Control(d.res, st.val, st.out + d.out + FFs(1), d.stored)
  }

  // ---------------------------------------------------------------- facts

  /** The read loop over `a + b` blocks is the loop over `a` blocks followed,
      when all of those arrived, by the loop over the next `b`; the first
      failure ends it with every later block outstanding. */
  lemma {:induction false} ReadBlocksSplit(s: seq<byte>, c: nat, a: nat, b: nat)
    ensures var x := ReadBlocks(s, c, a);
            var y := ReadBlocks(s, c + |x.out|, b);
            ReadBlocks(s, c, a + b) ==
              if x.left == 0 then Transfer(y.left, x.data + y.data, x.out + y.out)
              else Transfer(x.left + b, x.data, x.out)
    decreases a
  {
    if a == 0 {
      var y := ReadBlocks(s, c, b);
      assert [] + y.data == y.data && [] + y.out == y.out;
    } else {
      var p := ReadPacket(s, c, SectorSize);
      if p.val.Some? {
        var c1 := c + |p.out|;
        ReadBlocksSplit(s, c1, a - 1, b);
        var x := ReadBlocks(s, c1, a - 1);
        var y := ReadBlocks(s, c1 + |x.out|, b);
        var z := ReadBlocks(s, c1, a - 1 + b);
        assert ReadBlocks(s, c, a) == Transfer(x.left, p.val.value + x.data, p.out + x.out);
        assert ReadBlocks(s, c, a + b) == Transfer(z.left, p.val.value + z.data, p.out + z.out);
        var X := ReadBlocks(s, c, a);
        assert |X.out| == |p.out| + |x.out|;
        assert ReadBlocks(s, c + |X.out|, b) == y;
        if x.left == 0 {
          assert z == Transfer(y.left, x.data + y.data, x.out + y.out);
          Regroup(p.val.value, x.data, y.data);
          Regroup(p.out, x.out, y.out);
        } else {
          assert z == Transfer(x.left + b, x.data, x.out);
        }
      }
    }
  }

  /** Block `k` of what the read loop stores is the payload of the packet
      read right after the first `k` blocks: the 512 bytes the card sent
      after the 0xFE start token that ended that packet's token poll. */
  lemma ReadBlocksChunk(s: seq<byte>, c: nat, count: nat, k: nat)
    requires k < count - ReadBlocks(s, c, count).left
    ensures var pre := ReadBlocks(s, c, k);
            var p := ReadPacket(s, c + |pre.out|, SectorSize);
            var x := c + |pre.out| + |p.out| - SectorSize - 2;
            && p.val.Some?
            && c + |pre.out| + 1 <= x <= c + |pre.out| + TokenPolls
            && At(s, x - 1) == TokenStartBlock
            && Chunk(ReadBlocks(s, c, count).data, k) == Slice(s, x, SectorSize)
  {
    ReadBlocksPacket(s, c, count, k);
    var pre := ReadBlocks(s, c, k);
    ReadPacketOk(s, c + |pre.out|, SectorSize);
  }

  /** Block `k` of the read loop is the payload of packet `k`, which starts
      where the loop over the first `k` blocks ended, all of them received. */
  lemma {:induction false} ReadBlocksPacket(s: seq<byte>, c: nat, count: nat, k: nat)
    requires k < count - ReadBlocks(s, c, count).left
    ensures var pre := ReadBlocks(s, c, k);
            var p := ReadPacket(s, c + |pre.out|, SectorSize);
            && pre.left == 0 && p.val.Some?
            && Chunk(ReadBlocks(s, c, count).data, k) == p.val.value
    decreases count
  {
    var p := ReadPacket(s, c, SectorSize);
    assert p.val.Some?;
    var rest := ReadBlocks(s, c + |p.out|, count - 1);
    var d := ReadBlocks(s, c, count).data;
    assert d == p.val.value + rest.data;
    if k == 0 {
      assert ReadBlocks(s, c, 0) == Transfer(0, [], []);
      assert Chunk(d, 0) == p.val.value;
    } else {
      ReadBlocksPacket(s, c + |p.out|, count - 1, k - 1);
      var pre' := ReadBlocks(s, c + |p.out|, k - 1);
      assert ReadBlocks(s, c, k) == Transfer(pre'.left, p.val.value + pre'.data, p.out + pre'.out);
      ChunkShift(p.val.value, rest.data, k);
    }
  }

  /** Past a first 512-byte block, chunk `k` is chunk `k - 1` of the rest. */
  lemma ChunkShift(first: seq<byte>, rest: seq<byte>, k: nat)
    requires |first| == 512 && 1 <= k && (k + 1) * 512 <= |first + rest|
    ensures Chunk(first + rest, k) == Chunk(rest, k - 1)
  {
    var i := (k - 1) * 512;
    assert k * 512 == i + 512 && (k + 1) * 512 == i + 1024;
    assert (first + rest)[i + 512..i + 1024] == rest[i..i + 512];
  }

  /** The write loop over `a + b` chunks from chunk `k` is the loop over
      `a` chunks followed, when all were accepted, by the loop over the next
      `b`; the first rejection ends it with every later chunk outstanding. */
  lemma {:induction false} WriteBlocksSplit(s: seq<byte>, c: nat, data: seq<byte>, k: nat, a: nat, b: nat)
    requires (k + a + b) * 512 <= |data|
    ensures var x := WriteBlocks(s, c, data, k, a);
            var y := WriteBlocks(s, c + |x.out|, data, k + a, b);
            WriteBlocks(s, c, data, k, a + b) ==
              if x.left == 0 then Transfer(y.left, [], x.out + y.out)
              else Transfer(x.left + b, [], x.out)
    decreases a
  {
    if a == 0 {
      var y := WriteBlocks(s, c, data, k, b);
      assert [] + y.out == y.out;
    } else {
      var p := WritePacket(s, c, Chunk(data, k), TokenStartMulti);
      if p.val {
        var c1 := c + |p.out|;
        WriteBlocksSplit(s, c1, data, k + 1, a - 1, b);
        var x := WriteBlocks(s, c1, data, k + 1, a - 1);
        var y := WriteBlocks(s, c1 + |x.out|, data, k + a, b);
        if x.left == 0 {
          Regroup(p.out, x.out, y.out);
        }
      }
    }
  }

  /** A multi-block write succeeds exactly when WRITE_MULTIPLE_BLOCK is
      accepted, every chunk is accepted and the card takes the STOP_TRAN
      token: a rejected STOP_TRAN fails the write even after all chunks. */
  lemma WriteMultiOk(s: seq<byte>, c: nat, data: seq<byte>, addr: u32, cardType: byte, count: byte)
    requires count != 0 && count as nat * 512 <= |data|
    ensures var pre := EraseHint(s, c, cardType, count);
            var q := Command(s, c + |pre|, CmdWriteMultBlock, addr);
            var b := WriteBlocks(s, c + |pre| + |q.out|, data, 0, count as nat);
            var close := WritePacket(s, c + |pre| + |q.out| + |b.out|, [], TokenStopTran);
            WriteMulti(s, c, data, addr, cardType, count).left == 0 <==> q.r == 0 && b.left == 0 && close.val
  {
  }

  /** A multi-block read sends STOP_TRANSMISSION exactly when
      READ_MULTIPLE_BLOCK was accepted: a rejected CMD18 ends the read with
      nothing stored and every block outstanding; otherwise the packet loop
      is followed by the framed CMD12, whatever the loop's outcome. */
  lemma ReadMultiStops(s: seq<byte>, c: nat, addr: u32, count: nat)
    ensures var q := Command(s, c, CmdReadMultBlock, addr);
            var b := ReadBlocks(s, c + |q.out|, count);
            var cs := c + |q.out| + |b.out|;
            var r := ReadMulti(s, c, addr, count);
            && (q.r != 0 ==> r.out == q.out && r.left == count && r.data == [])
            && (q.r == 0 ==> r.left == b.left && r.data == b.data)
            && (q.r == 0 && Select(s, cs + 1).val ==>
                  exists m :: r.out == q.out + b.out + FFs(1 + |Select(s, cs + 1).out|) + CmdFrame(CmdStopTransmission, 0) + FFs(m))
  {
    var q := Command(s, c, CmdReadMultBlock, addr);
    var b := ReadBlocks(s, c + |q.out|, count);
    var cs := c + |q.out| + |b.out|;
    if q.r == 0 && Select(s, cs + 1).val {
      var stop := Command(s, cs, CmdStopTransmission, 0);
      assert ReadMulti(s, c, addr, count).out == q.out + b.out + stop.out;
      var m := StopFrame(s, cs);
      SplitTail(q.out + b.out, FFs(1 + |Select(s, cs + 1).out|), CmdFrame(CmdStopTransmission, 0), FFs(m), stop.out);
    }
  }

  /** STOP_TRANSMISSION sent to a card that selects: its frame after the
      deselect and select clocks, then the stuff byte and the reply reads. */
  lemma StopFrame(s: seq<byte>, c: nat) returns (m: nat)
    requires Select(s, c + 1).val
    ensures Command(s, c, CmdStopTransmission, 0).out ==
              FFs(1 + |Select(s, c + 1).out|) + CmdFrame(CmdStopTransmission, 0) + FFs(m)
  {
    CommandPlain(s, c, CmdStopTransmission, 0);
    IssueFrame(s, c, CmdStopTransmission, 0);
    m := |Issue(s, c, CmdStopTransmission, 0).out| - 1 - |Select(s, c + 1).out| - 6;
  }

  lemma SplitTail(x: seq<byte>, a: seq<byte>, f: seq<byte>, t: seq<byte>, y: seq<byte>)
    requires y == a + f + t
    ensures x + y == x + a + f + t
  {
  }

  /** A multi-block write closes with the STOP_TRAN token exactly when
      WRITE_MULTIPLE_BLOCK was accepted: a rejected CMD25 ends the write
      after the hint and the command, with every block outstanding;
      otherwise, whether or not a chunk was rejected, the card is waited
      for and sent 0xFD, and a card that stays busy instead leaves one block
      outstanding. */
  lemma WriteMultiCloses(s: seq<byte>, c: nat, data: seq<byte>, addr: u32, cardType: byte, count: byte)
    requires count as nat * 512 <= |data|
    ensures var pre := EraseHint(s, c, cardType, count);
            var q := Command(s, c + |pre|, CmdWriteMultBlock, addr);
            var b := WriteBlocks(s, c + |pre| + |q.out|, data, 0, count as nat);
            var w := WaitReady(s, c + |pre| + |q.out| + |b.out|);
            var r := WriteMulti(s, c, data, addr, cardType, count);
            && (q.r != 0 ==> r.out == pre + q.out && r.left == count as nat)
            && (q.r == 0 && w.val ==> r.out == pre + q.out + b.out + w.out + [TokenStopTran] && r.left == b.left)
            && (q.r == 0 && !w.val ==> r.out == pre + q.out + b.out + FFs(ReadyPolls) && r.left == 1)
  {
    var pre := EraseHint(s, c, cardType, count);
    var q := Command(s, c + |pre|, CmdWriteMultBlock, addr);
    var b := WriteBlocks(s, c + |pre| + |q.out|, data, 0, count as nat);
    WriteMultiShape(s, c, data, addr, cardType, count);
    CloseToken(s, c + |pre| + |q.out| + |b.out|, pre + q.out + b.out);
  }

  /** The two ways a multi-block write ends, one step of `WriteMulti` at a
      time. */
  lemma WriteMultiShape(s: seq<byte>, c: nat, data: seq<byte>, addr: u32, cardType: byte, count: byte)
    requires count as nat * 512 <= |data|
    ensures var pre := EraseHint(s, c, cardType, count);
            var q := Command(s, c + |pre|, CmdWriteMultBlock, addr);
            var b := WriteBlocks(s, c + |pre| + |q.out|, data, 0, count as nat);
            var close := WritePacket(s, c + |pre| + |q.out| + |b.out|, [], TokenStopTran);
            var r := WriteMulti(s, c, data, addr, cardType, count);
            && (q.r != 0 ==> r.out == pre + q.out && r.left == count as nat)
            && (q.r == 0 ==> r.out == pre + q.out + b.out + close.out && r.left == if close.val then b.left else 1)
  {
  }

  /** The STOP_TRAN packet: the ready-wait and the 0xFD token, or 5000
      busy reads and a failure. */
  lemma CloseToken(s: seq<byte>, c: nat, before: seq<byte>)
    ensures var close := WritePacket(s, c, [], TokenStopTran);
            var w := WaitReady(s, c);
            && (w.val ==> close.val && before + close.out == before + w.out + [TokenStopTran])
            && (!w.val ==> !close.val && before + close.out == before + FFs(ReadyPolls))
  {
    WritePacketIs(s, c, [], TokenStopTran);
    XmitBlockSpec(s, c, [], TokenStopTran);
    var w := WaitReady(s, c);
    if w.val {
      Regroup(before, w.out, [TokenStopTran]);
    }
  }

  /** The ACMD23 hint is sent only to SD cards, and then it is the whole
      ACMD23 exchange carrying the block count. */
  lemma EraseHintOnlySd(s: seq<byte>, c: nat, cardType: byte, count: byte)
    ensures cardType & CtSdc == 0 ==> EraseHint(s, c, cardType, count) == []
    ensures cardType & CtSdc != 0 ==>
              EraseHint(s, c, cardType, count) == Command(s, c, AcmdSetWrBlkEraseCount, count as u32).out
    ensures cardType & CtSdc != 0 ==> |EraseHint(s, c, cardType, count)| >= 3
  {
    if cardType & CtSdc != 0 {
      CommandIs(s, c, AcmdSetWrBlkEraseCount, count as u32);
      SendCmdNonEmpty(s, c, AcmdSetWrBlkEraseCount, count as u32);
    }
  }

  /** disk_read's gates: NOINIT (no card, not initialised, or a failed CMD58
      probe) gives RES_NOTRDY and a count of 0 RES_PARERR, both storing
      nothing; past them the transfer's bytes are followed by the deselect
      clock, and RES_OK means every block arrived. */
  lemma ReadGates(s: seq<byte>, c: nat, stat: byte, cardType: byte, drv: byte, inserted: bool, wp: bool,
                  sector: u32, count: byte)
    ensures var r := Read(s, c, stat, cardType, drv, inserted, wp, sector, count);
            var ready := Probes(stat, drv, inserted) && Command(s, c, CmdReadOcr, 0).r == 0;
            && (r.res == ResNotRdy <==> !ready)
            && (r.res == ResParErr <==> ready && count == 0)
            && (r.res == ResNotRdy || r.res == ResParErr ==> r.data == [])
            && (ready && count != 0 ==>
                  var st := Status(s, c, stat, drv, inserted, wp);
                  var x := ReadTransfer(s, c + |st.out|, cardType, sector, count);
                  && r.out == st.out + x.out + FFs(1)
                  && r.data == x.data
                  && (r.res == ResOk <==> x.left == 0)
                  && (r.res == ResOk || r.res == ResError))
  {
    StatusNotReady(s, c, stat, drv, inserted, wp);
  }

  /** disk_write's gates: NOINIT gives RES_NOTRDY, then the write-protect
      switch RES_WRPRT, then a count of 0 RES_PARERR; past them RES_OK means
      every block was accepted. */
  lemma WriteGates(s: seq<byte>, c: nat, stat: byte, cardType: byte, drv: byte, inserted: bool, wp: bool,
                   data: seq<byte>, sector: u32, count: byte)
    requires count as nat * 512 <= |data|
    ensures var r := Write(s, c, stat, cardType, drv, inserted, wp, data, sector, count);
            var ready := Probes(stat, drv, inserted) && Command(s, c, CmdReadOcr, 0).r == 0;
            && (r.res == ResNotRdy <==> !ready)
            && (r.res == ResWrPrt <==> ready && wp)
            && (r.res == ResParErr <==> ready && !wp && count == 0)
            && (ready && !wp && count != 0 ==>
                  var st := Status(s, c, stat, drv, inserted, wp);
                  var x := WriteTransfer(s, c + |st.out|, cardType, data, sector, count);
                  && r.out == st.out + x.out + FFs(1)
                  && (r.res == ResOk <==> x.left == 0)
                  && (r.res == ResOk || r.res == ResError))
  {
    StatusNotReady(s, c, stat, drv, inserted, wp);
    if Status(s, c, stat, drv, inserted, wp).val & StaNoInit == 0 {
      StatusWriteProtect(s, c, stat, drv, inserted, wp);
    }
  }

  /** disk_ioctl: NOINIT gives RES_NOTRDY; CTRL_SYNC succeeds exactly when
      select does; GET_SECTOR_COUNT succeeds exactly when SEND_CSD answers 0
      and the 16-byte CSD packet arrives, and then stores the count computed
      from it; GET_BLOCK_SIZE stores 128; any other code is RES_PARERR. A
      value is stored only on success. */
  lemma IoctlSpec(s: seq<byte>, c: nat, stat: byte, drv: byte, inserted: bool, wp: bool, ctrl: byte)
    ensures var r := Ioctl(s, c, stat, drv, inserted, wp, ctrl);
            var st := Status(s, c, stat, drv, inserted, wp);
            var ready := Probes(stat, drv, inserted) && Command(s, c, CmdReadOcr, 0).r == 0;
            var c1 := c + |st.out|;
            var q := Command(s, c1, CmdSendCsd, 0);
            var p := RcvrBlock(s, c1 + |q.out|, 16);
            && (r.res == ResNotRdy <==> !ready)
            && (r.res != ResOk ==> r.stored == Nothing)
            && (ready && ctrl == CtrlSync ==> (r.res == ResOk <==> Select(s, c1).val) && r.res != ResParErr)
            && (ready && ctrl == GetSectorCount ==>
                  && (r.res == ResOk <==> q.r == 0 && p.val.Some?)
                  && (r.res == ResOk ==> |p.val.value| == 16 && r.stored == CsdStored(p.val.value)))
            && (ready && ctrl == GetBlockSize ==> r.res == ResOk && r.stored == Dword(128))
            && (ready && ctrl != CtrlSync && ctrl != GetSectorCount && ctrl != GetBlockSize ==> r.res == ResParErr)
  {
    StatusNotReady(s, c, stat, drv, inserted, wp);
    var st := Status(s, c, stat, drv, inserted, wp);
    var q := Command(s, c + |st.out|, CmdSendCsd, 0);
    ReadPacketIs(s, c + |st.out| + |q.out|, 16);
  }
}
