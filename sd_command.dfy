/** The command layer over the scripted card: select/deselect with the
    bounded ready-wait, and send_cmd with its ACMD prefix. Each function takes
    the script `s` and the byte-clock `c` at which the routine starts, and
    gives what the routine returns and the bytes it puts on MOSI (one per
    clock, so the routine ends at clock `c + |out|`). */
module SdCommand {
  import opened SdDefs
  import opened SdWire
  import opened SdFrame

  datatype Run<T> = Run(val: T, out: seq<byte>)

  /** A command's R1 reply, its MOSI bytes, and whether the card is left
      selected (CS low). */
  datatype Reply = Reply(r: byte, out: seq<byte>, selected: bool)

  /** wait_ready: up to 5000 reads for the idle byte 0xFF. */
  function WaitReady(s: seq<byte>, c: nat): Run<bool> {
    var w := Poll(s, c, ReadyPolls, Ready);
    Run(w.last == 0xFF, FFs(w.taken))
  }

  /** select: CS low, one dummy clock, then wait_ready; on timeout it
      deselects, which clocks one more byte. */
  function Select(s: seq<byte>, c: nat): Run<bool> {
    var w := WaitReady(s, c + 1);
    if w.val then Run(true, FFs(1) + w.out)
    else Run(false, FFs(1) + w.out + FFs(1))
  }

  /** The exchange with a selected card: the frame, the stuff byte after
      STOP_TRANSMISSION, and up to 10 reads for R1. */
  function Transact(s: seq<byte>, c: nat, cmd: byte, arg: u32): Run<byte> {
    var skip := if cmd == CmdStopTransmission then 1 else 0;
    var p := Poll(s, c + 6 + skip, ResponsePolls, Response);
    Run(p.last, CmdFrame(cmd, arg) + FFs(skip) + FFs(p.taken))
  }

  /** The part of send_cmd after the ACMD prefix: deselect, select, and on
      success the exchange. */
  function Issue(s: seq<byte>, c: nat, cmd: byte, arg: u32): Reply {
    var sel := Select(s, c + 1);
    if !sel.val then Reply(0xFF, FFs(1) + sel.out, false)
    else
      var t := Transact(s, c + 1 + |sel.out|, cmd, arg);
      Reply(t.val, FFs(1) + sel.out + t.out, true)
  }

  /** send_cmd: an ACMD (bit 7 set) is sent as CMD55 followed by the command
      index, and a CMD55 reply above 1 is returned without sending it. The
      source reaches CMD55 by calling itself; CMD55 has no bit 7, so that
      call is exactly `Issue`. */
  function SendCmd(s: seq<byte>, c: nat, cmd: byte, arg: u32): Reply {
    if cmd & 0x80 != 0 then
      var pre := Issue(s, c, CmdAppCmd, 0);
      if pre.r > 1 then pre
      else
        var q := Issue(s, c + |pre.out|, cmd & 0x7F, arg);
        Reply(q.r, pre.out + q.out, q.selected)
    else Issue(s, c, cmd, arg)
  }

  /** send_cmd as the layers above it see it: the same reply, reached
      through one recursive step. The verifier expands a recursive function
      one step per use, so the byte-level detail of `SendCmd` stays out of
      the proofs about disk_status, disk_initialize and the transfers;
      `CommandIs` brings it back where it is needed. */
  function Command(s: seq<byte>, c: nat, cmd: byte, arg: u32): Reply {
    Deferred(s, c, cmd, arg, 1)
  }

  /** `SendCmd` after `steps` steps. (`c` in the decreases clause keeps the
      verifier from unrolling it for a literal `steps`.) */
  function Deferred(s: seq<byte>, c: nat, cmd: byte, arg: u32, steps: nat): Reply
    decreases steps, c
  {
    if steps == 0 then SendCmd(s, c, cmd, arg) else Deferred(s, c, cmd, arg, steps - 1)
  }

  lemma CommandIs(s: seq<byte>, c: nat, cmd: byte, arg: u32)
    ensures Command(s, c, cmd, arg) == SendCmd(s, c, cmd, arg)
  {
    assert Deferred(s, c, cmd, arg, 0) == SendCmd(s, c, cmd, arg);
  }

  /** A command without bit 7 is sent without the prefix. */
  lemma CommandPlain(s: seq<byte>, c: nat, cmd: byte, arg: u32)
    requires cmd & 0x80 == 0
    ensures Command(s, c, cmd, arg) == Issue(s, c, cmd, arg)
  {
    CommandIs(s, c, cmd, arg);
  }

  /** An application command is CMD55 and then, unless CMD55 answered above
      1, the command index. */
  lemma CommandPrefixed(s: seq<byte>, c: nat, cmd: byte, arg: u32)
    requires cmd & 0x80 != 0
    ensures var pre := Issue(s, c, CmdAppCmd, 0);
            var q := Issue(s, c + |pre.out|, cmd & 0x7F, arg);
            Command(s, c, cmd, arg) == if pre.r > 1 then pre else Reply(q.r, pre.out + q.out, q.selected)
  {
    CommandIs(s, c, cmd, arg);
  }

  /** wait_ready succeeds exactly when a 0xFF arrives within 5000 reads, and
      then it stops right after the first one. */
  lemma WaitReadySpec(s: seq<byte>, c: nat)
    ensures WaitReady(s, c).val <==> exists i :: c <= i < c + ReadyPolls && At(s, i) == 0xFF
    ensures WaitReady(s, c).val ==> At(s, c + |WaitReady(s, c).out| - 1) == 0xFF
    ensures forall i :: c <= i < c + |WaitReady(s, c).out| - 1 ==> At(s, i) != 0xFF
    ensures !WaitReady(s, c).val ==> |WaitReady(s, c).out| == ReadyPolls
  {
    PollSpec(s, c, ReadyPolls, Ready);
    PollFinds(s, c, ReadyPolls, Ready);
    PollReadyAt(s, c, ReadyPolls);
  }

  lemma PollReadyAt(s: seq<byte>, c: nat, n: nat)
    requires n >= 1
    ensures (exists i :: c <= i < c + n && Stops(Ready, At(s, i))) <==>
            (exists i :: c <= i < c + n && At(s, i) == 0xFF)
    ensures forall i :: c <= i < c + Poll(s, c, n, Ready).taken - 1 ==> At(s, i) != 0xFF
  {
    var w := Poll(s, c, n, Ready);
    PollSpec(s, c, n, Ready);
    forall i | c <= i < c + w.taken - 1 ensures At(s, i) != 0xFF {
      assert !Stops(Ready, At(s, i));
    }
  }

  /** select leaves CS low exactly on success; a failed select has clocked
      the deselect byte as well, after 5000 busy reads. */
  lemma SelectSpec(s: seq<byte>, c: nat)
    ensures Select(s, c).val <==> exists i :: c + 1 <= i < c + 1 + ReadyPolls && At(s, i) == 0xFF
    ensures !Select(s, c).val ==> |Select(s, c).out| == ReadyPolls + 2
    ensures Select(s, c).val ==> 2 <= |Select(s, c).out| <= ReadyPolls + 1
    ensures Select(s, c).out == FFs(|Select(s, c).out|)
  {
    WaitReadySpec(s, c + 1);
    SelectFills(s, c);
  }

  /** select clocks nothing but fill bytes. */
  lemma SelectFills(s: seq<byte>, c: nat)
    ensures Select(s, c).out == FFs(|Select(s, c).out|)
  {
    var w := WaitReady(s, c + 1);
    assert w.out == FFs(|w.out|);
    FFsAdd(1, |w.out|);
    if !w.val {
      FFsAdd(1 + |w.out|, 1);
    }
  }

  /** A select timeout makes the command layer return 0xFF with the card
      deselected, having sent nothing but fill bytes: no frame. */
  lemma IssueTimeout(s: seq<byte>, c: nat, cmd: byte, arg: u32)
    requires !Select(s, c + 1).val
    ensures Issue(s, c, cmd, arg).r == 0xFF && !Issue(s, c, cmd, arg).selected
    ensures Issue(s, c, cmd, arg).out == FFs(|Issue(s, c, cmd, arg).out|)
  {
    SelectFills(s, c + 1);
    FFsAdd(1, |Select(s, c + 1).out|);
  }

  /** Framing of one command: after the deselect and select clocks, exactly
      the six frame bytes are sent, plus the stuff byte for CMD12, and then
      1 to 10 reads for the reply. */
  lemma IssueFrame(s: seq<byte>, c: nat, cmd: byte, arg: u32)
    requires Select(s, c + 1).val
    ensures var q := Issue(s, c, cmd, arg);
            var skip := if cmd == CmdStopTransmission then 1 else 0;
            var k := 1 + |Select(s, c + 1).out|;
            var m := |q.out| - k - 6 - skip;
            && q.selected
            && 1 <= m <= ResponsePolls
            && q.out == FFs(k) + CmdFrame(cmd, arg) + FFs(skip + m)
  {
    var sel := Select(s, c + 1);
    var k := 1 + |sel.out|;
    var t := Transact(s, c + k, cmd, arg);
    assert Issue(s, c, cmd, arg).out == FFs(1) + sel.out + t.out;
    TransactFrame(s, c + k, cmd, arg);
    var f := FFs(|t.out| - 6);
    assert t.out == CmdFrame(cmd, arg) + f;
    assert FFs(1) + sel.out == FFs(k) by {
      SelectFills(s, c + 1);
      FFsAdd(1, |sel.out|);
    }
    Regroup(FFs(k), CmdFrame(cmd, arg), f);
  }

  /** The exchange sends the frame, then only fill bytes: the stuff byte
      and 1 to 10 reply reads. */
  lemma TransactFrame(s: seq<byte>, c: nat, cmd: byte, arg: u32)
    ensures var t := Transact(s, c, cmd, arg);
            var skip := if cmd == CmdStopTransmission then 1 else 0;
            var m := |t.out| - 6 - skip;
            && 1 <= m <= ResponsePolls
            && t.out == CmdFrame(cmd, arg) + FFs(skip + m)
  {
    var skip := if cmd == CmdStopTransmission then 1 else 0;
    var p := Poll(s, c + 6 + skip, ResponsePolls, Response);
    FFsAdd(skip, p.taken);
    Regroup(CmdFrame(cmd, arg), FFs(skip), FFs(p.taken));
  }

  /** The reply of a selected command is the first of its reply reads with
      bit 7 clear, or the 10th read when none has. */
  lemma IssueResponse(s: seq<byte>, c: nat, cmd: byte, arg: u32)
    requires Select(s, c + 1).val
    ensures var q := Issue(s, c, cmd, arg);
            var skip := if cmd == CmdStopTransmission then 1 else 0;
            var c1 := c + 1 + |Select(s, c + 1).out| + 6 + skip;
            var m := c + |q.out| - c1;
            && 1 <= m <= ResponsePolls
            && q.r == At(s, c1 + m - 1)
            && (forall i :: c1 <= i < c1 + m - 1 ==> At(s, i) & 0x80 != 0)
            && (q.r & 0x80 != 0 ==> m == ResponsePolls)
  {
    var skip := if cmd == CmdStopTransmission then 1 else 0;
    var c1 := c + 1 + |Select(s, c + 1).out| + 6 + skip;
    IssueReplyPoll(s, c, cmd, arg);
    ResponsePollSpec(s, c1);
  }

  lemma IssueReplyPoll(s: seq<byte>, c: nat, cmd: byte, arg: u32)
    requires Select(s, c + 1).val
    ensures var skip := if cmd == CmdStopTransmission then 1 else 0;
            var c1 := c + 1 + |Select(s, c + 1).out| + 6 + skip;
            var p := Poll(s, c1, ResponsePolls, Response);
            Issue(s, c, cmd, arg).r == p.last && |Issue(s, c, cmd, arg).out| == c1 - c + p.taken
  {
  }

  /** The R1 poll, with the stop condition spelled out. */
  lemma ResponsePollSpec(s: seq<byte>, c: nat)
    ensures var p := Poll(s, c, ResponsePolls, Response);
            && p.last == At(s, c + p.taken - 1)
            && (forall i :: c <= i < c + p.taken - 1 ==> At(s, i) & 0x80 != 0)
            && (p.last & 0x80 != 0 ==> p.taken == ResponsePolls)
  {
    var p := Poll(s, c, ResponsePolls, Response);
    PollSpec(s, c, ResponsePolls, Response);
    forall i | c <= i < c + p.taken - 1 ensures At(s, i) & 0x80 != 0 {
      assert !Stops(Response, At(s, i));
    }
  }

  /** The bytes of an application command: CMD55(0) goes out framed after
      its deselect and select clocks; a CMD55 reply above 1 is the result and
      nothing more is sent; otherwise, once the second select succeeds, the
      frame of the command index (bit 7 cleared) follows. */
  lemma AcmdFrames(s: seq<byte>, c: nat, cmd: byte, arg: u32)
    requires cmd & 0x80 != 0 && Select(s, c + 1).val
    ensures var pre := Issue(s, c, CmdAppCmd, 0);
            var c2 := c + |pre.out|;
            var r := SendCmd(s, c, cmd, arg);
            && (exists m :: pre.out == FFs(1 + |Select(s, c + 1).out|) + CmdFrame(CmdAppCmd, 0) + FFs(m))
            && (pre.r > 1 ==> r.r == pre.r && r.out == pre.out)
            && (pre.r <= 1 && Select(s, c2 + 1).val ==>
                  exists m :: r.out == pre.out + FFs(1 + |Select(s, c2 + 1).out|) + CmdFrame(cmd & 0x7F, arg) + FFs(m))
  {
    var pre := Issue(s, c, CmdAppCmd, 0);
    IssueFrame(s, c, CmdAppCmd, 0);
    var c2 := c + |pre.out|;
    if pre.r <= 1 && Select(s, c2 + 1).val {
      var q := Issue(s, c2, cmd & 0x7F, arg);
      IssueFrame(s, c2, cmd & 0x7F, arg);
      var head := FFs(1 + |Select(s, c2 + 1).out|) + CmdFrame(cmd & 0x7F, arg);
      var tail := FFs(|q.out| - |head|);
      assert q.out == head + tail;
      assert SendCmd(s, c, cmd, arg).out == pre.out + q.out;
      Regroup(pre.out, head, tail);
      Regroup(pre.out, FFs(1 + |Select(s, c2 + 1).out|), CmdFrame(cmd & 0x7F, arg));
    }
  }

  /** send_cmd leaves the card selected unless it timed out in select, and
      then its reply is 0xFF: a reply with bit 7 clear always comes from a
      selected card. */
  lemma SendCmdSelected(s: seq<byte>, c: nat, cmd: byte, arg: u32)
    ensures SendCmd(s, c, cmd, arg).r & 0x80 == 0 ==> SendCmd(s, c, cmd, arg).selected
  {
  }

  /** Every send_cmd clocks at least the deselect byte, the select byte and
      one ready poll. */
  lemma SendCmdNonEmpty(s: seq<byte>, c: nat, cmd: byte, arg: u32)
    ensures |SendCmd(s, c, cmd, arg).out| >= 3
  {
    if cmd & 0x80 != 0 {
      IssueNonEmpty(s, c, CmdAppCmd, 0);
      var pre := Issue(s, c, CmdAppCmd, 0);
      IssueNonEmpty(s, c + |pre.out|, cmd & 0x7F, arg);
    } else {
      IssueNonEmpty(s, c, cmd, arg);
    }
  }

  lemma IssueNonEmpty(s: seq<byte>, c: nat, cmd: byte, arg: u32)
    ensures |Issue(s, c, cmd, arg).out| >= 3
  {
    SelectSpec(s, c + 1);
  }
}
