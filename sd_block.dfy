/** The data-block layer over the scripted card: receiving a data packet
    (start token, payload, two CRC bytes) and sending one (token, 512-byte
    payload, two dummy CRC bytes, data-response token). */
module SdBlock {
  import opened SdDefs
  import opened SdWire
  import opened SdCommand

  /** rcvr_datablock: up to 1000 reads for the first byte other than 0xFF;
      unless that byte is the start token the packet fails, otherwise `btr`
      payload bytes and the two CRC bytes follow. `btr` is at least 1, as
      rcvr_mmc's count-down loop needs. */
  function RcvrBlock(s: seq<byte>, c: nat, btr: nat): Run<Option<seq<byte>>>
    requires btr >= 1
  {
    var t := Poll(s, c, TokenPolls, Token);
    if t.last != TokenStartBlock then Run(None, FFs(t.taken))
    else Run(Some(Slice(s, c + t.taken, btr)), FFs(t.taken) + FFs(btr) + FFs(2))
  }

  /** rcvr_datablock as disk_read and disk_ioctl see it: the same run,
      reached through one recursive step, so that its polling and slicing
      stay out of the proofs about the transfers (see `Command`). */
  function ReadPacket(s: seq<byte>, c: nat, btr: nat): (r: Run<Option<seq<byte>>>)
    requires btr >= 1
    ensures r.val.Some? ==> |r.val.value| == btr
  {
    ReadPacketAfter(s, c, btr, 1)
  }

  function ReadPacketAfter(s: seq<byte>, c: nat, btr: nat, steps: nat): (r: Run<Option<seq<byte>>>)
    requires btr >= 1
    ensures r.val.Some? ==> |r.val.value| == btr
    decreases steps, c
  {
    if steps == 0 then RcvrBlock(s, c, btr) else ReadPacketAfter(s, c, btr, steps - 1)
  }

  lemma ReadPacketIs(s: seq<byte>, c: nat, btr: nat)
    requires btr >= 1
    ensures ReadPacket(s, c, btr) == RcvrBlock(s, c, btr)
  {
    assert ReadPacketAfter(s, c, btr, 0) == RcvrBlock(s, c, btr);
  }

  /** A received packet starts right after the first non-0xFF byte, which is
      0xFE; it is the `btr` bytes the card sends next, and the routine then
      reads exactly two more. */
  lemma RcvrBlockOk(s: seq<byte>, c: nat, btr: nat)
    requires btr >= 1 && RcvrBlock(s, c, btr).val.Some?
    ensures var r := RcvrBlock(s, c, btr);
            var t := |r.out| - btr - 2;
            && 1 <= t <= TokenPolls
            && At(s, c + t - 1) == TokenStartBlock
            && (forall i :: c <= i < c + t - 1 ==> At(s, i) == 0xFF)
            && r.val.value == Slice(s, c + t, btr)
            && r.out == FFs(t + btr + 2)
  {
    var p := Poll(s, c, TokenPolls, Token);
    var r := RcvrBlock(s, c, btr);
    RcvrBlockShape(s, c, btr);
    TokenPollSpec(s, c);
    var t := |r.out| - btr - 2;
    assert t == p.taken;
  }

  /** The same for a packet as the transfers see it. */
  lemma ReadPacketOk(s: seq<byte>, c: nat, btr: nat)
    requires btr >= 1 && ReadPacket(s, c, btr).val.Some?
    ensures var r := ReadPacket(s, c, btr);
            var t := |r.out| - btr - 2;
            && 1 <= t <= TokenPolls
            && At(s, c + t - 1) == TokenStartBlock
            && r.val.value == Slice(s, c + t, btr)
  {
    ReadPacketIs(s, c, btr);
    RcvrBlockOk(s, c, btr);
  }

  lemma RcvrBlockShape(s: seq<byte>, c: nat, btr: nat)
    requires btr >= 1
    ensures var p := Poll(s, c, TokenPolls, Token);
            var r := RcvrBlock(s, c, btr);
            r.val.Some? ==> && p.last == TokenStartBlock
                            && |r.out| - btr - 2 == p.taken
                            && r.val.value == Slice(s, c + p.taken, btr)
                            && r.out == FFs(p.taken + btr + 2)
  {
    var p := Poll(s, c, TokenPolls, Token);
    FFsAdd(p.taken, btr);
    FFsAdd(p.taken + btr, 2);
  }

  /** rcvr_datablock succeeds exactly when, within 1000 reads, the card
      sends 0xFE after nothing but 0xFF; any other first byte, or 1000 bytes
      of 0xFF, fails after reading just those bytes. */
  lemma RcvrBlockFinds(s: seq<byte>, c: nat, btr: nat)
    requires btr >= 1
    ensures RcvrBlock(s, c, btr).val.Some? <==>
            exists i :: c <= i < c + TokenPolls && At(s, i) == TokenStartBlock &&
                        forall j :: c <= j < i ==> At(s, j) == 0xFF
    ensures RcvrBlock(s, c, btr).val.None? ==> RcvrBlock(s, c, btr).out == FFs(|RcvrBlock(s, c, btr).out|)
    ensures RcvrBlock(s, c, btr).val.None? ==> |RcvrBlock(s, c, btr).out| <= TokenPolls
  {
    var t := Poll(s, c, TokenPolls, Token);
    TokenPollSpec(s, c);
  }

  /** The token poll, with the stop condition spelled out. */
  lemma TokenPollSpec(s: seq<byte>, c: nat)
    ensures var p := Poll(s, c, TokenPolls, Token);
            && p.last == At(s, c + p.taken - 1)
            && (forall i :: c <= i < c + p.taken - 1 ==> At(s, i) == 0xFF)
            && (p.last == 0xFF ==> p.taken == TokenPolls)
  {
    var p := Poll(s, c, TokenPolls, Token);
    PollSpec(s, c, TokenPolls, Token);
    forall i | c <= i < c + p.taken - 1 ensures At(s, i) == 0xFF {
      assert !Stops(Token, At(s, i));
    }
  }

  /** xmit_datablock: wait_ready, then the token; a data token is followed by
      the 512 payload bytes, two dummy CRC bytes and one read for the
      data-response token, accepted when its low five bits are 00101. */
  function XmitBlock(s: seq<byte>, c: nat, data: seq<byte>, token: byte): Run<bool>
    requires token == TokenStopTran || |data| == SectorSize
  {
    var w := WaitReady(s, c);
    if !w.val then Run(false, w.out)
    else if token == TokenStopTran then Run(true, w.out + [token])
    else
      var resp := At(s, c + |w.out| + 1 + SectorSize + 2);
      Run(resp & 0x1F == 0x05, w.out + [token] + data + FFs(2) + FFs(1))
  }

  /** xmit_datablock as disk_write sees it (see `ReadPacket`). */
  function WritePacket(s: seq<byte>, c: nat, data: seq<byte>, token: byte): Run<bool>
    requires token == TokenStopTran || |data| == SectorSize
  {
    WritePacketAfter(s, c, data, token, 1)
  }

  function WritePacketAfter(s: seq<byte>, c: nat, data: seq<byte>, token: byte, steps: nat): Run<bool>
    requires token == TokenStopTran || |data| == SectorSize
    decreases steps, c
  {
    if steps == 0 then XmitBlock(s, c, data, token) else WritePacketAfter(s, c, data, token, steps - 1)
  }

  lemma WritePacketIs(s: seq<byte>, c: nat, data: seq<byte>, token: byte)
    requires token == TokenStopTran || |data| == SectorSize
    ensures WritePacket(s, c, data, token) == XmitBlock(s, c, data, token)
  {
    assert WritePacketAfter(s, c, data, token, 0) == XmitBlock(s, c, data, token);
  }

  /** What xmit_datablock sends and when it succeeds: nothing but the wait
      when the card stays busy; only the token for STOP_TRAN; otherwise the
      token, the payload and three clocks, succeeding iff the data response
      read on the last of them is "accepted". */
  lemma XmitBlockSpec(s: seq<byte>, c: nat, data: seq<byte>, token: byte)
    requires token == TokenStopTran || |data| == SectorSize
    ensures var x := XmitBlock(s, c, data, token);
            var w := WaitReady(s, c);
            && (!w.val ==> !x.val && x.out == FFs(ReadyPolls))
            && (w.val && token == TokenStopTran ==> x.val && x.out == w.out + [TokenStopTran])
            && (w.val && token != TokenStopTran ==>
                  && x.out == w.out + [token] + data + FFs(3)
                  && (x.val <==> At(s, c + |x.out| - 1) & 0x1F == 0x05))
  {
    WaitReadyLength(s, c);
    FFsAdd(2, 1);
    var w := WaitReady(s, c);
    if w.val && token != TokenStopTran {
      Regroup(w.out + [token] + data, FFs(2), FFs(1));
    }
  }

  lemma WaitReadyLength(s: seq<byte>, c: nat)
    ensures !WaitReady(s, c).val ==> WaitReady(s, c).out == FFs(ReadyPolls)
  {
    PollSpec(s, c, ReadyPolls, Ready);
  }
}
