/** The driver itself, as the imperative code it is: the module-level state
    of the C file (Stat, CardType) and the SPI link become the fields of one
    session object, and each routine is a method that clocks bytes through
    the link one at a time. Every method is proved to do exactly what the
    corresponding specification function of SdCommand, SdBlock, SdStatus,
    SdInit or SdDisk computes from the card's script and the clock at which
    the method starts. */
module SdDriver {
  import opened SdDefs
  import opened SdWire
  import opened SdFrame
  import SdCommand
  import SdBlock
  import SdStatus
  import SdInit
  import SdDisk

  class Session {
    /** The bytes the card clocks back on MISO, one per byte-clock; past the
        end the pulled-up line reads 0xFF. */
    const script: seq<byte>
    /** The socket inputs INS and WP. */
    const inserted: bool
    const writeProtected: bool

    /** Every byte the driver has put on MOSI, in order; its length is the
        number of byte-clocks so far. */
    var sent: seq<byte>
    /** The chip-select line is low (card selected). */
    var selected: bool
    /** The module state `Stat` (DSTATUS) and `CardType`. */
    var stat: byte
    var cardType: byte

    /** Power-up: nothing clocked, card deselected, not initialised. */
    constructor (script: seq<byte>, inserted: bool, writeProtected: bool)
      ensures this.script == script && this.inserted == inserted && this.writeProtected == writeProtected
      ensures sent == [] && !selected && stat == StaNoInit && cardType == 0
    {
      this.script := script;
      this.inserted := inserted;
      this.writeProtected := writeProtected;
      sent := [];
      selected := false;
      stat := StaNoInit;
      cardType := 0;
    }

    // ------------------------------------------------------ byte transport

    /** SD_ReadByte: clocks the fill byte out and returns the card's byte. */
    method ReadByte() returns (b: byte)
      modifies this`sent
      ensures sent == old(sent) + [DummyByte]
      ensures b == At(script, |old(sent)|)
    {
      b := At(script, |sent|);
      sent := sent + [DummyByte];
    }

    /** SD_WriteByte: clocks `d` out and returns the byte shifted in. */
    method WriteByte(d: byte) returns (b: byte)
      modifies this`sent
      ensures sent == old(sent) + [d]
      ensures b == At(script, |old(sent)|)
    {
      b := At(script, |sent|);
      sent := sent + [d];
    }

    /** SD_CS_HIGH and SD_CS_LOW: the chip-select line alone; no clock. */
    method CsHigh()
      modifies this`selected
      ensures !selected && sent == old(sent)
    {
      selected := false;
    }

    method CsLow()
      modifies this`selected
      ensures selected && sent == old(sent)
    {
      selected := true;
    }

    /** rcvr_mmc: `bc` reads stored from `buff[off]` on. The source's
        do-while needs `bc` to be at least 1. */
    method RcvrMmc(buff: array<byte>, off: nat, bc: nat)
      requires 1 <= bc && off + bc <= buff.Length
      modifies this`sent, buff
      ensures sent == old(sent) + FFs(bc)
      ensures buff[..] == Overwrite(old(buff[..]), off, Slice(script, |old(sent)|, bc))
    {
      ghost var c := |sent|;
      var i := 0;
      while i < bc
        invariant 0 <= i <= bc
        invariant sent == old(sent) + FFs(i)
        invariant forall j :: 0 <= j < buff.Length ==>
                    buff[j] == if off <= j < off + i then At(script, c + j - off) else old(buff[j])
      {
        var r := ReadByte();
        buff[off + i] := r;
        i := i + 1;
      }
      OverwriteAt(old(buff[..]), off, Slice(script, c, bc));
      assert buff[..] == Overwrite(old(buff[..]), off, Slice(script, c, bc));
    }

    /** xmit_mmc: clocks out `data[off..off + bc]`. */
    method XmitMmc(data: seq<byte>, off: nat, bc: nat)
      requires 1 <= bc && off + bc <= |data|
      modifies this`sent
      ensures sent == old(sent) + data[off..off + bc]
    {
      var i := 0;
      while i < bc
        invariant 0 <= i <= bc
        invariant sent == old(sent) + data[off..off + i]
      {
        var _ := WriteByte(data[off + i]);
        i := i + 1;
      }
    }

    // ------------------------------------------------------ waits and select

    /** wait_ready: up to 5000 reads for the idle byte. */
    method WaitReady() returns (ok: bool)
      modifies this`sent
      ensures var w := SdCommand.WaitReady(script, |old(sent)|);
              ok == w.val && sent == old(sent) + w.out
    {
      ghost var c := |sent|;
      var tmr: nat := ReadyPolls;
      var d: byte := 0;
      while tmr > 0
        invariant tmr <= ReadyPolls
        invariant sent == old(sent) + FFs(ReadyPolls - tmr)
        invariant forall j :: c <= j < |sent| ==> At(script, j) != 0xFF
        invariant tmr == 0 ==> d == At(script, |sent| - 1)
      {
        d := ReadByte();
        if d == 0xFF {
          break;
        }
        tmr := tmr - 1;
      }
      ok := tmr != 0;
      PollEndIs(script, c, c + ReadyPolls - 1, Ready, |sent| - 1);
    }

    /** deselect: CS high, then one dummy clock. */
    method Deselect()
      modifies this`sent, this`selected
      ensures sent == old(sent) + FFs(1) && !selected
    {
      CsHigh();
      var _ := ReadByte();
    }

    /** select: CS low, one dummy clock, wait_ready; on timeout deselect. */
    method Select() returns (ok: bool)
      modifies this`sent, this`selected
      ensures var sel := SdCommand.Select(script, |old(sent)|);
              ok == sel.val && sent == old(sent) + sel.out && selected == ok
    {
      ghost var c := |sent|;
      CsLow();
      var _ := ReadByte();
      ok := WaitReady();
      if ok {
        return;
      }
      Deselect();
    }

    // ------------------------------------------------------ command layer

    /** send_cmd: the ACMD prefix (through a call of itself for CMD55), the
        deselect and select, the six frame bytes, the stuff byte after
        STOP_TRANSMISSION and at most ten reads for the R1 reply. */
    method SendCmd(cmd: byte, arg: u32) returns (r: byte)
      modifies this`sent, this`selected
      ensures var q := SdCommand.Command(script, |old(sent)|, cmd, arg);
              r == q.r && sent == old(sent) + q.out && selected == q.selected
      decreases if cmd & 0x80 != 0 then 1 else 0
    {
      ghost var c := |sent|;
      var index := cmd;
      if cmd & 0x80 != 0 {
        index := cmd & 0x7F;
        SdCommand.CommandPrefixed(script, c, cmd, arg);
        SdCommand.CommandPlain(script, c, CmdAppCmd, 0);
        ghost var pre := SdCommand.Issue(script, c, CmdAppCmd, 0);
        var n := SendCmd(CmdAppCmd, 0);
        if n > 1 {
          return n;
        }
        ghost var q := SdCommand.Issue(script, c + |pre.out|, index, arg);
        r := Issue(index, arg);
        Regroup(old(sent), pre.out, q.out);
      } else {
        SdCommand.CommandPlain(script, c, cmd, arg);
        r := Issue(index, arg);
      }
    }

    /** The part of send_cmd after the ACMD prefix. */
    method Issue(cmd: byte, arg: u32) returns (r: byte)
      modifies this`sent, this`selected
      ensures var q := SdCommand.Issue(script, |old(sent)|, cmd, arg);
              r == q.r && sent == old(sent) + q.out && selected == q.selected
    {
      ghost var c := |sent|;
      Deselect();
      var ok := Select();
      ghost var sel := SdCommand.Select(script, c + 1);
      if !ok {
        Regroup(old(sent), FFs(1), sel.out);
        return 0xFF;
      }
      ghost var t := SdCommand.Transact(script, c + 1 + |sel.out|, cmd, arg);
      r := Transact(cmd, arg);
      Regroup(old(sent), FFs(1), sel.out);
      Regroup(old(sent), FFs(1) + sel.out, t.out);
    }

    /** The exchange of send_cmd with the selected card. */
    method Transact(cmd: byte, arg: u32) returns (r: byte)
      modifies this`sent
      ensures var t := SdCommand.Transact(script, |old(sent)|, cmd, arg);
              r == t.val && sent == old(sent) + t.out
    {
      // The frame bytes are a pure function of the command and argument.
      var frame := CmdFrame(cmd, arg);
      for i := 0 to 6
        invariant sent == old(sent) + frame[..i]
      {
        var _ := WriteByte(frame[i]);
      }
      assert frame[..6] == frame;
      ghost var skip := if cmd == CmdStopTransmission then 1 else 0;
      if cmd == CmdStopTransmission {
        var _ := ReadByte();
      }
      assert sent == old(sent) + frame + FFs(skip);
      Regroup(old(sent), frame, FFs(skip));
      ghost var p := Poll(script, |old(sent)| + 6 + skip, ResponsePolls, Response);
      r := RcvrResponse();
      Regroup(old(sent), frame + FFs(skip), FFs(p.taken));
    }

    /** The reply poll of send_cmd, the source's do-while: at most ten
        reads, ending at the first byte with bit 7 clear. */
    method RcvrResponse() returns (d: byte)
      modifies this`sent
      ensures var p := Poll(script, |old(sent)|, ResponsePolls, Response);
              d == p.last && sent == old(sent) + FFs(p.taken)
    {
      ghost var c := |sent|;
      var tries: nat := ResponsePolls;
      d := ReadByte();
      while d & 0x80 != 0 && tries > 1
        invariant 1 <= tries <= ResponsePolls
        invariant sent == old(sent) + FFs(ResponsePolls - tries + 1)
        invariant d == At(script, |sent| - 1)
        invariant forall j :: c <= j < |sent| - 1 ==> At(script, j) & 0x80 != 0
      {
        tries := tries - 1;
        d := ReadByte();
      }
      PollEndIs(script, c, c + ResponsePolls - 1, Response, |sent| - 1);
    }

    // ------------------------------------------------------ data blocks

    /** The token wait of rcvr_datablock: up to 1000 reads, each the
        source's rcvr_mmc(d, 1), for a byte other than 0xFF. */
    method RcvrToken() returns (d: byte)
      modifies this`sent
      ensures var p := Poll(script, |old(sent)|, TokenPolls, Token);
              d == p.last && sent == old(sent) + FFs(p.taken)
    {
      ghost var c := |sent|;
      var tmr: nat := TokenPolls;
      d := 0;
      while tmr > 0
        invariant tmr <= TokenPolls
        invariant sent == old(sent) + FFs(TokenPolls - tmr)
        invariant forall j :: c <= j < |sent| ==> At(script, j) == 0xFF
        invariant tmr < TokenPolls ==> d == At(script, |sent| - 1)
      {
        d := ReadByte();
        if d != 0xFF {
          break;
        }
        tmr := tmr - 1;
      }
      PollEndIs(script, c, c + TokenPolls - 1, Token, |sent| - 1);
    }

    /** rcvr_datablock: the token wait; unless it ends at the start token
        nothing more is read, otherwise `btr` bytes go into `buff[off..]`
        and the two CRC bytes are read and dropped. */
    method RcvrDatablock(buff: array<byte>, off: nat, btr: nat) returns (ok: bool)
      requires 1 <= btr && off + btr <= buff.Length
      modifies this`sent, buff
      ensures var r := SdBlock.ReadPacket(script, |old(sent)|, btr);
              ok == r.val.Some? && sent == old(sent) + r.out
      ensures var r := SdBlock.ReadPacket(script, |old(sent)|, btr);
              buff[..] == if ok then Overwrite(old(buff[..]), off, r.val.value) else old(buff[..])
    {
      ghost var c := |sent|;
      ghost var p := Poll(script, c, TokenPolls, Token);
      SdBlock.ReadPacketIs(script, c, btr);
      var d := RcvrToken();
      if d != TokenStartBlock {
        return false;
      }
      RcvrMmc(buff, off, btr);
      // The CRC: the source's rcvr_mmc(d, 2) into a scratch pair.
      var crc := new byte[2];
      RcvrMmc(crc, 0, 2);
      Regroup(old(sent), FFs(p.taken), FFs(btr));
      Regroup(old(sent), FFs(p.taken) + FFs(btr), FFs(2));
      ok := true;
    }

    /** xmit_datablock: wait_ready, the token, and for a data token the 512
        bytes of `data[off..]`, the two dummy CRC clocks and the read of the
        data response. With the STOP_TRAN token `data` is not used (the
        source passes a null pointer). */
    method XmitDatablock(data: seq<byte>, off: nat, token: byte) returns (ok: bool)
      requires token == TokenStopTran || off + SectorSize <= |data|
      modifies this`sent
      ensures var block := if token == TokenStopTran then [] else data[off..off + SectorSize];
              var x := SdBlock.WritePacket(script, |old(sent)|, block, token);
              ok == x.val && sent == old(sent) + x.out
    {
      ghost var wr := SdCommand.WaitReady(script, |sent|);
      ghost var block := if token == TokenStopTran then [] else data[off..off + SectorSize];
      SdBlock.WritePacketIs(script, |sent|, block, token);
      var ready := WaitReady();
      if !ready {
        return false;
      }
      // The source's one-byte xmit_mmc(d, 1) of the token and its
      // rcvr_mmc(d, 1) of the data response are single byte exchanges.
      var _ := WriteByte(token);
      Regroup(old(sent), wr.out, [token]);
      if token != TokenStopTran {
        XmitMmc(data, off, SectorSize);
        Regroup(old(sent), wr.out + [token], block);
        var crc := new byte[2];
        RcvrMmc(crc, 0, 2);
        Regroup(old(sent), wr.out + [token] + block, FFs(2));
        var resp := ReadByte();
        assert FFs(1) == [DummyByte];
        Regroup(old(sent), wr.out + [token] + block + FFs(2), FFs(1));
        if resp & 0x1F != 0x05 {
          return false;
        }
      }
      ok := true;
    }

    // ------------------------------------------------------ disk_status

    /** disk_status: the socket checks and, for a card believed
        initialised, CMD58 and its four OCR bytes, then CS high without a
        dummy clock; the result is also the new Stat. */
    method DiskStatus(drv: byte) returns (s: byte)
      modifies this`sent, this`selected, this`stat
      ensures var r := SdStatus.Status(script, |old(sent)|, old(stat), drv, inserted, writeProtected);
              s == r.val && stat == s && sent == old(sent) + r.out
      ensures selected == (old(selected) && !SdStatus.Probes(old(stat), drv, inserted))
    {
      SdStatus.StatusNoDisk(script, |sent|, stat, drv, inserted, writeProtected);
      s := stat;
      if drv != 0 || !inserted {
        s := StaNoDisk | StaNoInit;
      } else {
        SdStatus.StatusNoInit(script, |sent|, stat, writeProtected);
        s := s & !StaNoDisk;
        if writeProtected {
          s := s | StaProtect;
        } else {
          s := s & !StaProtect;
        }
        assert s == SdStatus.SocketFlags(stat, drv, inserted, writeProtected);
        SdStatus.ProtectBits(stat, writeProtected);
        if s & StaNoInit == 0 {
          s := CheckInitialized(s);
        }
      }
      stat := s;
    }

    /** The CMD58 probe of disk_status: NOINIT is added to `s` unless the
        card answers 0; the four OCR bytes are read and dropped, and CS goes
        high without a dummy clock. */
    method CheckInitialized(s0: byte) returns (s: byte)
      modifies this`sent, this`selected
      ensures var q := SdCommand.Command(script, |old(sent)|, CmdReadOcr, 0);
              s == (if q.r != 0 then s0 | StaNoInit else s0) && sent == old(sent) + (q.out + FFs(4))
      ensures !selected
    {
      ghost var q := SdCommand.Command(script, |sent|, CmdReadOcr, 0);
      s := s0;
      var r := SendCmd(CmdReadOcr, 0);
      if r != 0 {
        s := s | StaNoInit;
      }
      var ocr := new byte[4];
      RcvrMmc(ocr, 0, 4);
      CsHigh();
      Regroup(old(sent), q.out, FFs(4));
    }

    // ------------------------------------------------------ disk_initialize

    /** The card-type logic of disk_initialize from CMD0 on: the type found
        (0 for none) and the bytes clocked are those of the state machine
        from its first phase. */
    method Identify() returns (ty: byte)
      modifies this`sent, this`selected
      ensures var m := SdInit.Machine(script, |old(sent)|, SdInit.GoIdle);
              ty == m.val && sent == old(sent) + m.out
    {
      ty := 0;
      ghost var q := SdCommand.Command(script, |sent|, CmdGoIdleState, 0);
      var r := SendCmd(CmdGoIdleState, 0);
      if r == 1 {
        ghost var q8 := SdCommand.Command(script, |sent|, CmdSendIfCond, 0x1AA);
        r := SendCmd(CmdSendIfCond, 0x1AA);
        ghost var next := if r == 1 then SdInit.Echo else SdInit.ProbeV1;
        ghost var m := SdInit.Machine(script, |sent|, next);
        if r == 1 {
          ty := IdentifyV2();
        } else {
          ty := IdentifyV1();
        }
        SdInit.ThenThen(q.out, q8.out, m);
        Regroup(old(sent), q.out, q8.out);
        Regroup(old(sent), q.out + q8.out, m.out);
      }
    }

    /** The countdown loops of disk_initialize: `cmd` sent until the card
        answers 0, at most 1000 times; the delay between tries clocks
        nothing. */
    method RetryCmd(cmd: byte, arg: u32) returns (ok: bool)
      modifies this`sent, this`selected
      ensures var w := SdInit.Retry(script, |old(sent)|, cmd, arg, IdleRetries);
              ok == w.val && sent == old(sent) + w.out
    {
      ghost var w := SdInit.Retry(script, |sent|, cmd, arg, IdleRetries);
      ghost var done: seq<byte> := [];
      var tmr: nat := IdleRetries;
      while tmr > 0
        invariant tmr <= IdleRetries
        invariant sent == old(sent) + done
        invariant var cur := SdInit.Retry(script, |sent|, cmd, arg, tmr);
                  w.val == cur.val && w.out == done + cur.out
      {
        ghost var q := SdCommand.Command(script, |sent|, cmd, arg);
        ghost var rest := SdInit.Retry(script, |sent| + |q.out|, cmd, arg, tmr - 1);
        var r := SendCmd(cmd, arg);
        Regroup(old(sent), done, q.out);
        if r == 0 {
          break;
        }
        Regroup(done, q.out, rest.out);
        done := done + q.out;
        tmr := tmr - 1;
      }
      ok := tmr != 0;
    }

    /** The SDv2 branch, from the four R7 bytes on: the echo check, ACMD41
        with HCS until it answers 0, then CMD58 and the CCS bit of the
        OCR. */
    method IdentifyV2() returns (ty: byte)
      modifies this`sent, this`selected
      ensures var m := SdInit.Machine(script, |old(sent)|, SdInit.Echo);
              ty == m.val && sent == old(sent) + m.out
    {
      ghost var c := |sent|;
      var buf := new byte[4];
      ghost var before := buf[..];
      RcvrMmc(buf, 0, 4);
      OverwriteAt(before, 0, Slice(script, c, 4));
      if !(buf[2] == 0x01 && buf[3] == 0xAA) {
        return 0;
      }
      ghost var m := SdInit.Machine(script, |sent|, SdInit.WaitV2(IdleRetries));
      ty := AwaitV2();
      Regroup(old(sent), FFs(4), m.out);
    }

    /** The ACMD41 wait of the SDv2 branch and, if the card left the idle
        state in time, the CMD58 step. */
    method AwaitV2() returns (ty: byte)
      modifies this`sent, this`selected
      ensures var m := SdInit.Machine(script, |old(sent)|, SdInit.WaitV2(IdleRetries));
              ty == m.val && sent == old(sent) + m.out
    {
      ghost var w := SdInit.Retry(script, |sent|, AcmdSendOpCond, 1 << 30, IdleRetries);
      var ok := RetryCmd(AcmdSendOpCond, 1 << 30);
      SdInit.WaitV2Retry(script, |old(sent)|, IdleRetries);
      ty := 0;
      if ok {
        ghost var m := SdInit.Machine(script, |sent|, SdInit.ReadOcr);
        ty := ReadCcs();
        Regroup(old(sent), w.out, m.out);
      }
    }

    /** CMD58 after the SDv2 wait: the OCR's CCS bit (0x40 of its first
        byte) tells block from byte addressing; a CMD58 not answered with 0
        finds no card type. */
    method ReadCcs() returns (ty: byte)
      modifies this`sent, this`selected
      ensures var m := SdInit.Machine(script, |old(sent)|, SdInit.ReadOcr);
              ty == m.val && sent == old(sent) + m.out
    {
      ghost var q := SdCommand.Command(script, |sent|, CmdReadOcr, 0);
      var r := SendCmd(CmdReadOcr, 0);
      if r != 0 {
        return 0;
      }
      ghost var d := |sent|;
      var buf := new byte[4];
      ghost var before := buf[..];
      RcvrMmc(buf, 0, 4);
      OverwriteAt(before, 0, Slice(script, d, 4));
      ty := if buf[0] & 0x40 != 0 then CtSd2 | CtBlock else CtSd2;
    }

    /** The SDv1/MMC branch: ACMD41(0) picks SDv1 (reply at most 1) or MMC
        and the command that initialises it, repeated until it answers 0,
        then SET_BLOCKLEN 512. */
    method IdentifyV1() returns (ty: byte)
      modifies this`sent, this`selected
      ensures var m := SdInit.Machine(script, |old(sent)|, SdInit.ProbeV1);
              ty == m.val && sent == old(sent) + m.out
    {
      ghost var p := SdCommand.Command(script, |sent|, AcmdSendOpCond, 0);
      var r := SendCmd(AcmdSendOpCond, 0);
      var cmd: byte;
      if r <= 1 {
        ty, cmd := CtSd1, AcmdSendOpCond;
      } else {
        ty, cmd := CtMmc, CmdSendOpCond;
      }
      ghost var c := |sent|;
      ghost var w := SdInit.Retry(script, c, cmd, 0, IdleRetries);
      var ok := RetryCmd(cmd, 0);
      SdInit.WaitV1Retry(script, c, ty, cmd, IdleRetries);
      Regroup(old(sent), p.out, w.out);
      if !ok {
        ty := 0;
      } else {
        ghost var q := SdCommand.Command(script, |sent|, CmdSetBlocklen, SectorSize as u32);
        ghost var found := ty;
        r := SendCmd(CmdSetBlocklen, SectorSize as u32);
        if r != 0 {
          ty := 0;
        }
        assert SdInit.Machine(script, c + |w.out|, SdInit.BlockLen(found)) == SdCommand.Run(ty, q.out);
        SdInit.ThenThen(p.out, w.out, SdCommand.Run(ty, q.out));
        Regroup(old(sent), p.out + w.out, q.out);
      }
    }

    /** The power-up part of disk_initialize: CS high, ten idle bytes
        (80 clocks), then the card-type logic. */
    method PowerUp() returns (ty: byte)
      modifies this`sent, this`selected
      ensures var m := SdInit.Machine(script, |old(sent)| + 10, SdInit.GoIdle);
              ty == m.val && sent == old(sent) + FFs(10) + m.out
    {
      CsHigh();
      for n := 0 to 10
        invariant sent == old(sent) + FFs(n)
      {
        // The source's rcvr_mmc(buf, 1): one read.
        var _ := ReadByte();
        FFsAdd(n, 1);
      }
      ty := Identify();
    }

    /** disk_initialize: disk_status (an absent card returns at once), the
        power-up, then CardType, NOINIT after the type found, and a final
        deselect. */
    method DiskInitialize(drv: byte) returns (s: byte)
      modifies this`sent, this`selected, this`stat, this`cardType
      ensures var i := SdInit.Initialize(script, |old(sent)|, old(stat), old(cardType), drv, inserted, writeProtected);
              s == i.stat && stat == i.stat && cardType == i.cardType && sent == old(sent) + i.out
      ensures selected == (old(selected) && (drv != 0 || !inserted))
    {
      ghost var st := SdStatus.Status(script, |sent|, stat, drv, inserted, writeProtected);
      SdStatus.StatusNoDisk(script, |sent|, stat, drv, inserted, writeProtected);
      s := DiskStatus(drv);
      if s & StaNoDisk != 0 {
        return;
      }
      ghost var m := SdInit.Machine(script, |sent| + 10, SdInit.GoIdle);
      var ty := PowerUp();
      s := Conclude(ty);
      Regroup(old(sent), st.out, FFs(10));
      Regroup(old(sent), st.out + FFs(10), m.out);
    }

    /** The end of disk_initialize: CardType is the type found, NOINIT
        follows it, and a deselect clock. */
    method Conclude(ty: byte) returns (s: byte)
      modifies this`sent, this`selected, this`stat, this`cardType
      ensures cardType == ty && s == SdInit.InitStat(old(stat), ty) && stat == s
      ensures sent == old(sent) + FFs(1) && !selected
    {
      cardType := ty;
      if ty != 0 {
        stat := stat & !StaNoInit;
      } else {
        stat := stat | StaNoInit;
      }
      s := stat;
      Deselect();
    }

    // ------------------------------------------------------ disk_read

    /** The packet loop of a multi-block read: up to `count` packets into
        consecutive 512-byte slices of `buff`, stopping at the first that
        fails; `left` is the source's `count` when the loop ends. The
        source's do-while runs its body once before testing, which is the
        same for the counts of at least 2 it is used with. */
    method RcvrBlocks(buff: array<byte>, count: nat) returns (left: nat)
      requires count * 512 <= buff.Length
      modifies this`sent, buff
      ensures var t := SdDisk.ReadBlocks(script, |old(sent)|, count);
              left == t.left && sent == old(sent) + t.out && buff[..] == Overwrite(old(buff[..]), 0, t.data)
    {
      ghost var all := SdDisk.ReadBlocks(script, |sent|, count);
      ghost var done: seq<byte> := [];
      ghost var got: seq<byte> := [];
      OverwriteNothing(buff[..], 0);
      var off := 0;
      left := count;
      while left > 0
        invariant left <= count && off == (count - left) * 512 && |got| == off
        invariant sent == old(sent) + done
        invariant buff[..] == Overwrite(old(buff[..]), 0, got)
        invariant var cur := SdDisk.ReadBlocks(script, |sent|, left);
                  all.left == cur.left && all.out == done + cur.out && all.data == got + cur.data
      {
        ghost var r := SdBlock.ReadPacket(script, |sent|, SectorSize);
        ghost var rest := SdDisk.ReadBlocks(script, |sent| + |r.out|, left - 1);
        var ok := RcvrDatablock(buff, off, SectorSize);
        Regroup(old(sent), done, r.out);
        if !ok {
          assert got + [] == got;
          break;
        }
        OverwriteTwice(old(buff[..]), got, r.val.value);
        Regroup(done, r.out, rest.out);
        Regroup(got, r.val.value, rest.data);
        done := done + r.out;
        got := got + r.val.value;
        off := off + SectorSize;
        left := left - 1;
      }
      assert got + [] == got;
    }

    /** The single-block read: READ_SINGLE_BLOCK, then one packet into the
        start of `buff`; `left` is 0 only when both succeed. */
    method ReadSingleBlock(buff: array<byte>, addr: u32) returns (left: nat)
      requires SectorSize <= buff.Length
      modifies this`sent, this`selected, buff
      ensures var t := SdDisk.ReadSingle(script, |old(sent)|, addr);
              left == t.left && sent == old(sent) + t.out && buff[..] == Overwrite(old(buff[..]), 0, t.data)
    {
      OverwriteNothing(buff[..], 0);
      left := 1;
      ghost var q := SdCommand.Command(script, |sent|, CmdReadSingleBlock, addr);
      var r := SendCmd(CmdReadSingleBlock, addr);
      if r == 0 {
        var ok := RcvrDatablock(buff, 0, SectorSize);
        if ok {
          left := 0;
        }
      }
    }

    /** The multi-block read: READ_MULTIPLE_BLOCK, the packet loop, and
        STOP_TRANSMISSION whenever the command was accepted. */
    method ReadMultiBlock(buff: array<byte>, addr: u32, count: nat) returns (left: nat)
      requires count * 512 <= buff.Length
      modifies this`sent, this`selected, buff
      ensures var t := SdDisk.ReadMulti(script, |old(sent)|, addr, count);
              left == t.left && sent == old(sent) + t.out && buff[..] == Overwrite(old(buff[..]), 0, t.data)
    {
      OverwriteNothing(buff[..], 0);
      left := count;
      ghost var q := SdCommand.Command(script, |sent|, CmdReadMultBlock, addr);
      var r := SendCmd(CmdReadMultBlock, addr);
      if r == 0 {
        ghost var b := SdDisk.ReadBlocks(script, |sent|, count);
        left := RcvrBlocks(buff, count);
        ghost var stop := SdCommand.Command(script, |sent|, CmdStopTransmission, 0);
        var _ := SendCmd(CmdStopTransmission, 0);
        Regroup(old(sent), q.out, b.out);
        Regroup(old(sent), q.out + b.out, stop.out);
      }
    }

    /** disk_read: disk_status (NOT_READY unless initialised), a zero count
        is a parameter error, the sector becomes a byte address on a
        byte-addressed card, then the transfer and a deselect; the result is
        an error when any block is left outstanding. */
    method DiskRead(drv: byte, buff: array<byte>, sector: u32, count: byte) returns (res: DResult)
      requires count as nat * 512 <= buff.Length
      modifies this`sent, this`selected, this`stat, buff
      ensures var o := SdDisk.Read(script, |old(sent)|, old(stat), cardType, drv, inserted, writeProtected, sector, count);
              res == o.res && stat == o.stat && sent == old(sent) + o.out && buff[..] == Overwrite(old(buff[..]), 0, o.data)
      ensures if res == ResOk || res == ResError then !selected
              else selected == (old(selected) && !SdStatus.Probes(old(stat), drv, inserted))
    {
      OverwriteNothing(buff[..], 0);
      ghost var st := SdStatus.Status(script, |sent|, stat, drv, inserted, writeProtected);
      var s := DiskStatus(drv);
      if s & StaNoInit != 0 {
        return ResNotRdy;
      }
      if count == 0 {
        return ResParErr;
      }
      ghost var x := SdDisk.ReadTransfer(script, |sent|, cardType, sector, count);
      var left := ReadSectors(buff, sector, count);
      Deselect();
      res := if left != 0 then ResError else ResOk;
      Regroup(old(sent), st.out, x.out);
      Regroup(old(sent), st.out + x.out, FFs(1));
    }

    /** The transfer part of disk_read: the sector becomes a byte address on
        a byte-addressed card, then one block or several are read. */
    method ReadSectors(buff: array<byte>, sector: u32, count: byte) returns (left: nat)
      requires count != 0 && count as nat * 512 <= buff.Length
      modifies this`sent, this`selected, buff
      ensures var x := SdDisk.ReadTransfer(script, |old(sent)|, cardType, sector, count);
              left == x.left && sent == old(sent) + x.out && buff[..] == Overwrite(old(buff[..]), 0, x.data)
    {
      var addr := sector;
      if cardType & CtBlock == 0 {
        ByteAddressIsProduct(sector, cardType);
        addr := sector * 512;
      }
      if count == 1 {
        left := ReadSingleBlock(buff, addr);
      } else {
        left := ReadMultiBlock(buff, addr, count as nat);
      }
    }

    // ------------------------------------------------------ disk_write

    /** The packet loop of a multi-block write: chunk after chunk of `data`
        with the 0xFC token, stopping at the first one the card rejects;
        `left` is the source's `count` when the loop ends (its do-while is
        used with counts of at least 2). */
    method XmitBlocks(data: seq<byte>, count: nat) returns (left: nat)
      requires count * 512 <= |data|
      modifies this`sent
      ensures var t := SdDisk.WriteBlocks(script, |old(sent)|, data, 0, count);
              left == t.left && sent == old(sent) + t.out
    {
      ghost var all := SdDisk.WriteBlocks(script, |sent|, data, 0, count);
      ghost var done: seq<byte> := [];
      var off := 0;
      left := count;
      while left > 0
        invariant left <= count && off == (count - left) * 512
        invariant sent == old(sent) + done
        invariant var cur := SdDisk.WriteBlocks(script, |sent|, data, count - left, left);
                  all.left == cur.left && all.out == done + cur.out
      {
        ghost var k := count - left;
        assert SdDisk.Chunk(data, k) == data[off..off + SectorSize];
        ghost var x := SdBlock.WritePacket(script, |sent|, data[off..off + SectorSize], TokenStartMulti);
        ghost var rest := SdDisk.WriteBlocks(script, |sent| + |x.out|, data, k + 1, left - 1);
        var ok := XmitDatablock(data, off, TokenStartMulti);
        Regroup(old(sent), done, x.out);
        if !ok {
          break;
        }
        Regroup(done, x.out, rest.out);
        done := done + x.out;
        off := off + SectorSize;
        left := left - 1;
      }
    }

    /** The single-block write: WRITE_BLOCK, then one packet with the 0xFE
        token from the start of `data`; `left` is 0 only when both
        succeed. */
    method WriteSingleBlock(data: seq<byte>, addr: u32) returns (left: nat)
      requires SectorSize <= |data|
      modifies this`sent, this`selected
      ensures var t := SdDisk.WriteSingle(script, |old(sent)|, data, addr);
              left == t.left && sent == old(sent) + t.out
    {
      left := 1;
      ghost var q := SdCommand.Command(script, |sent|, CmdWriteSingleBlock, addr);
      var r := SendCmd(CmdWriteSingleBlock, addr);
      if r == 0 {
        assert SdDisk.Chunk(data, 0) == data[0..SectorSize];
        var ok := XmitDatablock(data, 0, TokenStartBlock);
        if ok {
          left := 0;
        }
      }
    }

    /** The multi-block write: the ACMD23 hint for SD cards, then
        WRITE_MULTIPLE_BLOCK and, once it is accepted, the packets and the
        STOP_TRAN token. */
    method WriteMultiBlock(data: seq<byte>, addr: u32, count: byte) returns (left: nat)
      requires count as nat * 512 <= |data|
      modifies this`sent, this`selected
      ensures var t := SdDisk.WriteMulti(script, |old(sent)|, data, addr, cardType, count);
              left == t.left && sent == old(sent) + t.out
    {
      ghost var pre := SdDisk.EraseHint(script, |sent|, cardType, count);
      SendEraseHint(count);
      ghost var q := SdCommand.Command(script, |sent|, CmdWriteMultBlock, addr);
      var r := SendCmd(CmdWriteMultBlock, addr);
      Regroup(old(sent), pre, q.out);
      ghost var c := |old(sent)|;
      assert |sent| == c + |pre| + |q.out|;
      left := count as nat;
      if r == 0 {
        ghost var b := SdDisk.WriteBlocks(script, |sent|, data, 0, count as nat);
        ghost var close := SdBlock.WritePacket(script, |sent| + |b.out|, [], TokenStopTran);
        left := XmitStream(data, count as nat);
        Regroup(old(sent), pre + q.out, b.out + close.out);
        Regroup(pre + q.out, b.out, close.out);
        assert SdDisk.WriteMulti(script, c, data, addr, cardType, count)
            == SdDisk.Transfer(if close.val then b.left else 1, [], pre + q.out + b.out + close.out);
      } else {
        assert SdDisk.WriteMulti(script, c, data, addr, cardType, count)
            == SdDisk.Transfer(count as nat, [], pre + q.out);
      }
    }

    /** The packets of a multi-block write and the STOP_TRAN token that
        ends them; a rejected STOP_TRAN leaves one block outstanding. */
    method XmitStream(data: seq<byte>, count: nat) returns (left: nat)
      requires count * 512 <= |data|
      modifies this`sent
      ensures var b := SdDisk.WriteBlocks(script, |old(sent)|, data, 0, count);
              var close := SdBlock.WritePacket(script, |old(sent)| + |b.out|, [], TokenStopTran);
              left == (if close.val then b.left else 1) && sent == old(sent) + (b.out + close.out)
    {
      ghost var b := SdDisk.WriteBlocks(script, |sent|, data, 0, count);
      left := XmitBlocks(data, count);
      var ok := XmitDatablock([], 0, TokenStopTran);
      if !ok {
        left := 1;
      }
      Regroup(old(sent), b.out, SdBlock.WritePacket(script, |old(sent)| + |b.out|, [], TokenStopTran).out);
    }

    /** The ACMD23 pre-erase hint, sent to SD cards only; its reply is not
        looked at. */
    method SendEraseHint(count: byte)
      modifies this`sent, this`selected
      ensures sent == old(sent) + SdDisk.EraseHint(script, |old(sent)|, cardType, count)
    {
      if cardType & CtSdc != 0 {
        var _ := SendCmd(AcmdSetWrBlkEraseCount, count as u32);
      }
    }

    /** disk_write: disk_status (NOT_READY unless initialised), write
        protection, a zero count, the byte address on a byte-addressed card,
        then the transfer and a deselect; the result is an error when any
        block is left outstanding. */
    method DiskWrite(drv: byte, data: seq<byte>, sector: u32, count: byte) returns (res: DResult)
      requires count as nat * 512 <= |data|
      modifies this`sent, this`selected, this`stat
      ensures var o := SdDisk.Write(script, |old(sent)|, old(stat), cardType, drv, inserted, writeProtected,
                                    data, sector, count);
              res == o.res && stat == o.stat && sent == old(sent) + o.out
      ensures if res == ResOk || res == ResError then !selected
              else selected == (old(selected) && !SdStatus.Probes(old(stat), drv, inserted))
    {
      ghost var st := SdStatus.Status(script, |sent|, stat, drv, inserted, writeProtected);
      var s := DiskStatus(drv);
      if s & StaNoInit != 0 {
        return ResNotRdy;
      }
      if s & StaProtect != 0 {
        return ResWrPrt;
      }
      if count == 0 {
        return ResParErr;
      }
      ghost var x := SdDisk.WriteTransfer(script, |sent|, cardType, data, sector, count);
      var left := WriteSectors(data, sector, count);
      Deselect();
      res := if left != 0 then ResError else ResOk;
      Regroup(old(sent), st.out, x.out);
      Regroup(old(sent), st.out + x.out, FFs(1));
    }

    /** The transfer part of disk_write: the sector becomes a byte address
        on a byte-addressed card, then one block or several are written. */
    method WriteSectors(data: seq<byte>, sector: u32, count: byte) returns (left: nat)
      requires count != 0 && count as nat * 512 <= |data|
      modifies this`sent, this`selected
      ensures var x := SdDisk.WriteTransfer(script, |old(sent)|, cardType, data, sector, count);
              left == x.left && sent == old(sent) + x.out
    {
      var addr := sector;
      if cardType & CtBlock == 0 {
        ByteAddressIsProduct(sector, cardType);
        addr := sector * 512;
      }
      if count == 1 {
        left := WriteSingleBlock(data, addr);
      } else {
        left := WriteMultiBlock(data, addr, count);
      }
    }

    // ------------------------------------------------------ disk_ioctl

    /** disk_ioctl: disk_status (NOT_READY unless initialised), the control
        code, and a deselect. What the source stores through its `buff`
        pointer is returned as `stored`. */
    method DiskIoctl(drv: byte, ctrl: byte) returns (res: DResult, stored: SdDisk.Stored)
      modifies this`sent, this`selected, this`stat
      ensures var k := SdDisk.Ioctl(script, |old(sent)|, old(stat), drv, inserted, writeProtected, ctrl);
              res == k.res && stat == k.stat && sent == old(sent) + k.out && stored == k.stored
      ensures if res == ResNotRdy then selected == (old(selected) && !SdStatus.Probes(old(stat), drv, inserted))
              else !selected
    {
      ghost var st := SdStatus.Status(script, |sent|, stat, drv, inserted, writeProtected);
      var s := DiskStatus(drv);
      if s & StaNoInit != 0 {
        return ResNotRdy, SdDisk.Nothing;
      }
      ghost var d := SdDisk.Dispatch(script, |sent|, ctrl);
      res, stored := Control(ctrl);
      Deselect();
      Regroup(old(sent), st.out, d.out);
      Regroup(old(sent), st.out + d.out, FFs(1));
    }

    /** The switch of disk_ioctl. */
    method Control(ctrl: byte) returns (res: DResult, stored: SdDisk.Stored)
      modifies this`sent, this`selected
      ensures var d := SdDisk.Dispatch(script, |old(sent)|, ctrl);
              res == d.res && sent == old(sent) + d.out && stored == d.stored
    {
      res, stored := ResError, SdDisk.Nothing;
      if ctrl == CtrlSync {
        var ok := Select();
        if ok {
          Deselect();
          res := ResOk;
        }
      } else if ctrl == GetSectorCount {
        res, stored := ReadSectorCount();
      } else if ctrl == GetBlockSize {
        stored := SdDisk.Dword(128);
        res := ResOk;
      } else {
        res := ResParErr;
      }
    }

    /** GET_SECTOR_COUNT: SEND_CSD and the 16-byte CSD packet, from which
        the sector count is computed. */
    method ReadSectorCount() returns (res: DResult, stored: SdDisk.Stored)
      modifies this`sent, this`selected
      ensures var d := SdDisk.Dispatch(script, |old(sent)|, GetSectorCount);
              res == d.res && sent == old(sent) + d.out && stored == d.stored
    {
      res, stored := ResError, SdDisk.Nothing;
      var r := SendCmd(CmdSendCsd, 0);
      if r == 0 {
        var csd := ReceiveCsd();
        if csd.Some? {
          stored := SdDisk.CsdStored(csd.value);
          res := ResOk;
        }
      }
    }

    /** The 16-byte CSD data packet, received into a local buffer. */
    method ReceiveCsd() returns (csd: Option<seq<byte>>)
      modifies this`sent
      ensures var p := SdBlock.ReadPacket(script, |old(sent)|, 16);
              csd == p.val && sent == old(sent) + p.out
    {
      var buf := new byte[16];
      ghost var before := buf[..];
      ghost var p := SdBlock.ReadPacket(script, |sent|, 16);
      var ok := RcvrDatablock(buf, 0, 16);
      if ok {
        OverwriteAt(before, 0, p.val.value);
        assert buf[..] == p.val.value;
        csd := Some(buf[..]);
      } else {
        csd := None;
      }
    }
  }
}
