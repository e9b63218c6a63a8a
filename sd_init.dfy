/** disk_initialize over the scripted card. Its card-type logic is a state
    machine: CMD0, CMD8, then either the SDv2 branch (R7 echo, ACMD41 with
    HCS, CMD58 for the CCS bit) or the SDv1/MMC branch (ACMD41 or CMD1, then
    SET_BLOCKLEN 512). Each phase below is one step of that machine, and the
    two countdown loops are phases that carry their remaining tries. */
module SdInit {
  import opened SdDefs
  import opened SdWire
  import opened SdFrame
  import opened SdCommand
  import opened SdStatus

  datatype Phase =
    | GoIdle                                    // CMD0
    | IfCond                                    // CMD8(0x1AA)
    | Echo                                      // the four R7 bytes
    | WaitV2(tries: nat)                        // ACMD41(HCS) until 0
    | ReadOcr                                   // CMD58 and the OCR
    | ProbeV1                                   // ACMD41(0): SDv1 or MMC?
    | WaitV1(ty: byte, cmd: byte, tries: nat)   // `cmd` until 0
    | BlockLen(ty: byte)                        // SET_BLOCKLEN(512)
    | Found(ty: byte)                           // the verdict

  /** Every step moves to a phase of lower rank. */
  function Rank(p: Phase): nat {
    match p
    case Found(_) => 0
    case BlockLen(_) => 1
    case ReadOcr => 1
    case WaitV1(_, _, t) => 2 + t
    case WaitV2(t) => 2 + t
    case ProbeV1 => 3 + IdleRetries
    case Echo => 3 + IdleRetries
    case IfCond => 4 + IdleRetries
    case GoIdle => 5 + IdleRetries
  }

  /** Prepends the bytes of one step to the run of the rest. */
  function Then(pre: seq<byte>, r: Run<byte>): Run<byte> {
    Run(r.val, pre + r.out)
  }

  /** Prepending two steps is prepending their concatenation. */
  lemma ThenThen(a: seq<byte>, b: seq<byte>, r: Run<byte>)
    ensures Then(a, Then(b, r)) == Then(a + b, r)
  {
    Regroup(a, b, r.out);
  }

  /** The SDv1 card type or MMC, chosen by the answer to ACMD41(0), and the
      command that card is then initialised with. */
  function V1Type(probe: byte): byte {
    if probe <= 1 then CtSd1 else CtMmc
  }

  function V1Command(probe: byte): byte {
    if probe <= 1 then AcmdSendOpCond else CmdSendOpCond
  }

  /** The card type found from phase `p` on, starting at clock `c`, and the
      bytes clocked until the verdict. The delay between tries takes no
      clocks. */
  function Machine(s: seq<byte>, c: nat, p: Phase): Run<byte>
    decreases Rank(p), c
  {
    match p
    case Found(ty) => Run(ty, [])
    case GoIdle =>
      var q := Command(s, c, CmdGoIdleState, 0);
      if q.r != 1 then Run(0, q.out) else Then(q.out, Machine(s, c + |q.out|, IfCond))
    case IfCond =>
      var q := Command(s, c, CmdSendIfCond, 0x1AA);
      Then(q.out, Machine(s, c + |q.out|, if q.r == 1 then Echo else ProbeV1))
    case Echo =>
      if !(At(s, c + 2) == 0x01 && At(s, c + 3) == 0xAA) then Run(0, FFs(4))
      else Then(FFs(4), Machine(s, c + 4, WaitV2(IdleRetries)))
    case WaitV2(t) =>
      if t == 0 then Run(0, [])
      else
        var q := Command(s, c, AcmdSendOpCond, 1 << 30);
        Then(q.out, Machine(s, c + |q.out|, if q.r == 0 then ReadOcr else WaitV2(t - 1)))
    case ReadOcr =>
      var q := Command(s, c, CmdReadOcr, 0);
      if q.r != 0 then Run(0, q.out)
      else Run(if At(s, c + |q.out|) & 0x40 != 0 then CtSd2 | CtBlock else CtSd2, q.out + FFs(4))
    case ProbeV1 =>
      var q := Command(s, c, AcmdSendOpCond, 0);
      Then(q.out, Machine(s, c + |q.out|, WaitV1(V1Type(q.r), V1Command(q.r), IdleRetries)))
    case WaitV1(ty, cmd, t) =>
      if t == 0 then Run(0, [])
      else
        var q := Command(s, c, cmd, 0);
        Then(q.out, Machine(s, c + |q.out|, if q.r == 0 then BlockLen(ty) else WaitV1(ty, cmd, t - 1)))
    case BlockLen(ty) =>
      var q := Command(s, c, CmdSetBlocklen, SectorSize as u32);
      Run(if q.r != 0 then 0 else ty, q.out)
  }

  /** NOINIT after disk_initialize: cleared when a card type was found, set
      otherwise; the other status bits are kept. */
  function InitStat(stat: byte, cardType: byte): byte {
    if cardType != 0 then stat & !StaNoInit else stat | StaNoInit
  }

  /** State and bytes left by disk_initialize. */
  datatype Init = Init(stat: byte, cardType: byte, out: seq<byte>)

  /** disk_initialize: the status check (an absent card returns at once,
      CardType untouched), ten idle bytes with CS high, the state machine,
      then NOINIT follows the type found and a final deselect clock. */
  function Initialize(s: seq<byte>, c: nat, stat: byte, cardType: byte, drv: byte, inserted: bool, wp: bool): Init {
    var st := Status(s, c, stat, drv, inserted, wp);
    if st.val & StaNoDisk != 0 then Init(st.val, cardType, st.out)
    else
      var m := Machine(s, c + |st.out| + 10, GoIdle);
      Init(InitStat(st.val, m.val), m.val, st.out + FFs(10) + m.out + FFs(1))
  }

  /** A reference definition of the countdown loops: a command repeated until
      it answers 0, at most `n` times; `val` says whether it got the 0. */
  function Retry(s: seq<byte>, c: nat, cmd: byte, arg: u32, n: nat): Run<bool>
    decreases n, c
  {
    if n == 0 then Run(false, [])
    else
      var q := Command(s, c, cmd, arg);
      if q.r == 0 then Run(true, q.out)
      else
        var rest := Retry(s, c + |q.out|, cmd, arg, n - 1);
        Run(rest.val, q.out + rest.out)
  }

  /** The ACMD41 wait of the SDv2 branch is the reference retry loop: if
      the card answers 0 within `t` tries the machine goes on to CMD58,
      otherwise the verdict is "no card type" after exactly those tries. */
  lemma {:induction false} WaitV2Retry(s: seq<byte>, c: nat, t: nat)
    ensures var w := Retry(s, c, AcmdSendOpCond, 1 << 30, t);
            Machine(s, c, WaitV2(t)) ==
              if w.val then Then(w.out, Machine(s, c + |w.out|, ReadOcr)) else Run(0, w.out)
    decreases t
  {
    if t > 0 {
      var q := Command(s, c, AcmdSendOpCond, 1 << 30);
      var c1 := c + |q.out|;
      if q.r != 0 {
        var rest := Retry(s, c1, AcmdSendOpCond, 1 << 30, t - 1);
        assert Retry(s, c, AcmdSendOpCond, 1 << 30, t) == Run(rest.val, q.out + rest.out);
        assert Machine(s, c, WaitV2(t)) == Then(q.out, Machine(s, c1, WaitV2(t - 1)));
        WaitV2Retry(s, c1, t - 1);
        ThenThen(q.out, rest.out, Machine(s, c1 + |rest.out|, ReadOcr));
      }
    }
  }

  /** The same for the SDv1/MMC wait, which goes on to SET_BLOCKLEN. */
  lemma {:induction false} WaitV1Retry(s: seq<byte>, c: nat, ty: byte, cmd: byte, t: nat)
    ensures var w := Retry(s, c, cmd, 0, t);
            Machine(s, c, WaitV1(ty, cmd, t)) ==
              if w.val then Then(w.out, Machine(s, c + |w.out|, BlockLen(ty))) else Run(0, w.out)
    decreases t
  {
    if t > 0 {
      var q := Command(s, c, cmd, 0);
      if q.r != 0 {
        WaitV1Retry(s, c + |q.out|, ty, cmd, t - 1);
        var w := Retry(s, c + |q.out|, cmd, 0, t - 1);
        ThenThen(q.out, w.out, Machine(s, c + |q.out| + |w.out|, BlockLen(ty)));
      }
    }
  }

  /** The card types disk_initialize can report: none, MMC, SDv1, or SDv2
      byte- or block-addressed. */
  predicate KnownType(ty: byte) {
    ty == 0 || ty == CtMmc || ty == CtSd1 || ty == CtSd2 || ty == CtSd2 | CtBlock
  }

  /** The phases reachable from CMD0: the SDv1/MMC phases carry SDv1 or MMC. */
  predicate Reachable(p: Phase) {
    match p
    case WaitV1(ty, _, _) => ty == CtSd1 || ty == CtMmc
    case BlockLen(ty) => ty == CtSd1 || ty == CtMmc
    case Found(ty) => KnownType(ty)
    case _ => true
  }

  /** Whatever the card answers, the machine ends in a known card type. */
  lemma {:induction false} MachineKnown(s: seq<byte>, c: nat, p: Phase)
    requires Reachable(p)
    ensures KnownType(Machine(s, c, p).val)
    decreases Rank(p), c
  {
    match p
    case Found(_) =>
    case GoIdle =>
      var q := Command(s, c, CmdGoIdleState, 0);
      if q.r == 1 { MachineKnown(s, c + |q.out|, IfCond); }
    case IfCond =>
      var q := Command(s, c, CmdSendIfCond, 0x1AA);
      MachineKnown(s, c + |q.out|, if q.r == 1 then Echo else ProbeV1);
    case Echo =>
      if At(s, c + 2) == 0x01 && At(s, c + 3) == 0xAA {
        MachineKnown(s, c + 4, WaitV2(IdleRetries));
      }
    case WaitV2(t) =>
      if t > 0 {
        var q := Command(s, c, AcmdSendOpCond, 1 << 30);
        MachineKnown(s, c + |q.out|, if q.r == 0 then ReadOcr else WaitV2(t - 1));
      }
    case ReadOcr =>
    case ProbeV1 =>
      var q := Command(s, c, AcmdSendOpCond, 0);
      MachineKnown(s, c + |q.out|, WaitV1(V1Type(q.r), V1Command(q.r), IdleRetries));
    case WaitV1(ty, cmd, t) =>
      if t > 0 {
        var q := Command(s, c, cmd, 0);
        MachineKnown(s, c + |q.out|, if q.r == 0 then BlockLen(ty) else WaitV1(ty, cmd, t - 1));
      }
    case BlockLen(_) =>
  }

  /** A card type is found only when GO_IDLE_STATE answers exactly 1 (the
      idle state); any other answer ends the machine at once with none. */
  lemma GoIdleGate(s: seq<byte>, c: nat)
    ensures var q := Command(s, c, CmdGoIdleState, 0);
            Machine(s, c, GoIdle).val != 0 ==> q.r == 1
    ensures var q := Command(s, c, CmdGoIdleState, 0);
            q.r != 1 ==> Machine(s, c, GoIdle) == Run(0, q.out)
  {
  }

  /** The SDv2 branch (SEND_IF_COND answered 1): the card is SDv2 exactly
      when the echo is 0x01 0xAA, ACMD41 with HCS answers 0 within 1000
      tries and READ_OCR answers 0, and it is block-addressed exactly when
      the first OCR byte has the CCS bit 0x40; there is no fall back to the
      SDv1/MMC branch. */
  lemma V2Verdict(s: seq<byte>, c: nat)
    requires Command(s, c, CmdSendIfCond, 0x1AA).r == 1
    ensures var c1 := c + |Command(s, c, CmdSendIfCond, 0x1AA).out|;
            var echo := At(s, c1 + 2) == 0x01 && At(s, c1 + 3) == 0xAA;
            var w := Retry(s, c1 + 4, AcmdSendOpCond, 1 << 30, IdleRetries);
            var o := Command(s, c1 + 4 + |w.out|, CmdReadOcr, 0);
            var ccs := At(s, c1 + 4 + |w.out| + |o.out|) & 0x40 != 0;
            Machine(s, c, IfCond).val ==
              if echo && w.val && o.r == 0 then (if ccs then CtSd2 | CtBlock else CtSd2) else 0
  {
    var c1 := c + |Command(s, c, CmdSendIfCond, 0x1AA).out|;
    assert Machine(s, c, IfCond).val == Machine(s, c1, Echo).val;
    if At(s, c1 + 2) == 0x01 && At(s, c1 + 3) == 0xAA {
      WaitV2Retry(s, c1 + 4, IdleRetries);
    }
  }

  /** The SDv1/MMC branch (SEND_IF_COND answered anything but 1): a probe
      ACMD41(0) answered with at most 1 means SDv1, initialised by ACMD41,
      otherwise MMC, initialised by CMD1; the type stands when that command
      answers 0 within 1000 tries and SET_BLOCKLEN(512) answers 0. */
  lemma V1Verdict(s: seq<byte>, c: nat)
    requires Command(s, c, CmdSendIfCond, 0x1AA).r != 1
    ensures var c1 := c + |Command(s, c, CmdSendIfCond, 0x1AA).out|;
            var probe := Command(s, c1, AcmdSendOpCond, 0);
            var c2 := c1 + |probe.out|;
            var w := Retry(s, c2, V1Command(probe.r), 0, IdleRetries);
            var b := Command(s, c2 + |w.out|, CmdSetBlocklen, SectorSize as u32);
            && V1Type(probe.r) == (if probe.r <= 1 then CtSd1 else CtMmc)
            && V1Command(probe.r) == (if probe.r <= 1 then AcmdSendOpCond else CmdSendOpCond)
            && Machine(s, c, IfCond).val == if w.val && b.r == 0 then V1Type(probe.r) else 0
  {
    var c1 := c + |Command(s, c, CmdSendIfCond, 0x1AA).out|;
    var probe := Command(s, c1, AcmdSendOpCond, 0);
    var c2 := c1 + |probe.out|;
    assert Machine(s, c, IfCond).val == Machine(s, c1, ProbeV1).val;
    assert Machine(s, c1, ProbeV1).val == Machine(s, c2, WaitV1(V1Type(probe.r), V1Command(probe.r), IdleRetries)).val;
    WaitV1Retry(s, c2, V1Type(probe.r), V1Command(probe.r), IdleRetries);
  }

  /** NOINIT is cleared exactly when a card type was found; every other
      status bit is kept. */
  lemma InitStatSpec(stat: byte, cardType: byte)
    ensures InitStat(stat, cardType) & StaNoInit == 0 <==> cardType != 0
    ensures InitStat(stat, cardType) & !StaNoInit == stat & !StaNoInit
  {
  }

  /** disk_initialize: with no card (or another drive) the status check
      decides and CardType is left alone; otherwise CardType is the
      machine's verdict, a known type, and NOINIT is cleared iff it is
      not 0. */
  lemma InitializeSpec(s: seq<byte>, c: nat, stat: byte, cardType: byte, drv: byte, inserted: bool, wp: bool)
    ensures var r := Initialize(s, c, stat, cardType, drv, inserted, wp);
            var st := Status(s, c, stat, drv, inserted, wp);
            && (drv != 0 || !inserted ==> r == Init(StaNoDisk | StaNoInit, cardType, []))
            && (drv == 0 && inserted ==>
                  && r.cardType == Machine(s, c + |st.out| + 10, GoIdle).val
                  && KnownType(r.cardType)
                  && (r.stat & StaNoInit == 0 <==> r.cardType != 0)
                  && r.stat & !StaNoInit == st.val & !StaNoInit)
  {
    var st := Status(s, c, stat, drv, inserted, wp);
    StatusNoDisk(s, c, stat, drv, inserted, wp);
    if drv == 0 && inserted {
      var m := Machine(s, c + |st.out| + 10, GoIdle);
      MachineKnown(s, c + |st.out| + 10, GoIdle);
      InitStatSpec(st.val, m.val);
    }
  }

  /** A card that never drives MISO (an empty script: every read is 0xFF)
      answers every plain command with 0xFF. */
  lemma SilentCommand(c: nat, cmd: byte, arg: u32)
    requires cmd & 0x80 == 0
    ensures Command([], c, cmd, arg).r == 0xFF
  {
    CommandIs([], c, cmd, arg);
    if Select([], c + 1).val {
      IssueResponse([], c, cmd, arg);
    } else {
      IssueTimeout([], c, cmd, arg);
    }
  }

  /** disk_initialize on a silent socket finds no card type and leaves
      NOINIT set. */
  lemma SilentCardUnknown(c: nat, stat: byte, cardType: byte, wp: bool)
    ensures var r := Initialize([], c, stat, cardType, 0, true, wp);
            r.cardType == 0 && r.stat & StaNoInit != 0
  {
    var st := Status([], c, stat, 0, true, wp);
    SilentCommand(c + |st.out| + 10, CmdGoIdleState, 0);
    StatusNoDisk([], c, stat, 0, true, wp);
    InitStatSpec(st.val, 0);
  }
}
