/** disk_status over the scripted card: the socket checks, then, for a card
    believed initialised, a CMD58 probe that marks it uninitialised again
    when the card no longer answers 0. */
module SdStatus {
  import opened SdDefs
  import opened SdWire
  import opened SdCommand

  /** The socket part of disk_status: no drive but 0 and no card means
      NODISK|NOINIT; otherwise NODISK is cleared and PROTECT follows the
      write-protect switch. */
  function SocketFlags(stat: byte, drv: byte, inserted: bool, wp: bool): byte {
    if drv != 0 || !inserted then StaNoDisk | StaNoInit
    else
      var t := stat & !StaNoDisk;
      if wp then t | StaProtect else t & !StaProtect
  }

  /** disk_status: the new Stat, and the bytes it clocks (a CMD58 exchange
      and the four OCR bytes, only for a present card without NOINIT). */
  function Status(s: seq<byte>, c: nat, stat: byte, drv: byte, inserted: bool, wp: bool): Run<byte> {
    var f := SocketFlags(stat, drv, inserted, wp);
    if drv != 0 || !inserted || f & StaNoInit != 0 then Run(f, [])
    else
      var q := Command(s, c, CmdReadOcr, 0);
      Run(if q.r != 0 then f | StaNoInit else f, q.out + FFs(4))
  }

  /** Whether disk_status talks to the card. */
  predicate Probes(stat: byte, drv: byte, inserted: bool) {
    drv == 0 && inserted && stat & StaNoInit == 0
  }

  /** NODISK is reported exactly when drive 0's socket is empty or another
      drive is asked for, and then NOINIT with it and nothing is sent. */
  lemma StatusNoDisk(s: seq<byte>, c: nat, stat: byte, drv: byte, inserted: bool, wp: bool)
    ensures var r := Status(s, c, stat, drv, inserted, wp);
            (r.val & StaNoDisk != 0 <==> drv != 0 || !inserted)
    ensures var r := Status(s, c, stat, drv, inserted, wp);
            drv != 0 || !inserted ==> r.val == StaNoDisk | StaNoInit && r.out == []
  {
    var r := Status(s, c, stat, drv, inserted, wp);
    if drv == 0 && inserted {
      ClearedBit(stat, s, c, wp);
    }
  }

  lemma ClearedBit(stat: byte, s: seq<byte>, c: nat, wp: bool)
    ensures Status(s, c, stat, 0, true, wp).val & StaNoDisk == 0
  {
    var t := stat & !StaNoDisk;
    assert t & StaNoDisk == 0;
    assert (t | StaProtect) & StaNoDisk == 0;
    assert (t & !StaProtect) & StaNoDisk == 0;
    assert ((t | StaProtect) | StaNoInit) & StaNoDisk == 0;
    assert ((t & !StaProtect) | StaNoInit) & StaNoDisk == 0;
  }

  /** For a present card, PROTECT mirrors the write-protect switch and the
      bits above PROTECT are left as they were. */
  lemma StatusProtect(s: seq<byte>, c: nat, stat: byte, wp: bool)
    ensures var r := Status(s, c, stat, 0, true, wp);
            (r.val & StaProtect != 0 <==> wp) && r.val & 0xF8 == stat & 0xF8
  {
    var t := stat & !StaNoDisk;
    var f := if wp then t | StaProtect else t & !StaProtect;
    ProtectBits(stat, wp);
    assert f == SocketFlags(stat, 0, true, wp);
  }

  lemma ProtectBits(stat: byte, wp: bool)
    ensures var t := stat & !StaNoDisk;
            var f := if wp then t | StaProtect else t & !StaProtect;
            && (f & StaProtect != 0 <==> wp) && f & 0xF8 == stat & 0xF8
            && (f & StaNoInit == stat & StaNoInit)
            && ((f | StaNoInit) & StaProtect != 0 <==> wp) && (f | StaNoInit) & 0xF8 == stat & 0xF8
  {
  }

  /** For a present card, NOINIT ends up set exactly when it already was or
      the card answers CMD58 with anything but 0; CMD58 is sent only when
      NOINIT was clear. */
  lemma StatusNoInit(s: seq<byte>, c: nat, stat: byte, wp: bool)
    ensures var r := Status(s, c, stat, 0, true, wp);
            (r.val & StaNoInit != 0 <==>
               stat & StaNoInit != 0 || Command(s, c, CmdReadOcr, 0).r != 0)
    ensures var r := Status(s, c, stat, 0, true, wp);
            stat & StaNoInit != 0 ==> r.out == []
    ensures var r := Status(s, c, stat, 0, true, wp);
            stat & StaNoInit == 0 ==> r.out == Command(s, c, CmdReadOcr, 0).out + FFs(4)
  {
    ProtectBits(stat, wp);
    var f := SocketFlags(stat, 0, true, wp);
    assert f & StaNoInit == stat & StaNoInit;
    assert (f | StaNoInit) & StaNoInit != 0;
  }

  /** NOINIT is sticky under disk_status: once set, a second call, on any
      card state, returns the same status and sends nothing. */
  lemma StatusSettles(s: seq<byte>, c: nat, s2: seq<byte>, c2: nat, stat: byte, drv: byte, inserted: bool, wp: bool)
    requires Status(s, c, stat, drv, inserted, wp).val & StaNoInit != 0
    ensures var r := Status(s, c, stat, drv, inserted, wp);
            Status(s2, c2, r.val, drv, inserted, wp) == Run(r.val, [])
  {
    var r := Status(s, c, stat, drv, inserted, wp);
    if drv == 0 && inserted {
      ProtectBits(r.val, wp);
      StatusProtect(s, c, stat, wp);
      Resettle(r.val, wp);
    }
  }

  lemma Resettle(v: byte, wp: bool)
    requires v & StaNoDisk == 0 && v & StaNoInit != 0 && (v & StaProtect != 0 <==> wp)
    ensures SocketFlags(v, 0, true, wp) == v
  {
  }

  /** disk_status is stable: called again on the status it returned, it
      returns the same flags whenever the card (if it is asked) still
      answers CMD58 with 0. */
  lemma StatusRepeat(s: seq<byte>, c: nat, s2: seq<byte>, c2: nat, stat: byte, drv: byte, inserted: bool, wp: bool)
    requires Command(s2, c2, CmdReadOcr, 0).r == 0
    ensures var r := Status(s, c, stat, drv, inserted, wp);
            Status(s2, c2, r.val, drv, inserted, wp).val == r.val
  {
    var r := Status(s, c, stat, drv, inserted, wp);
    if r.val & StaNoInit != 0 {
      StatusSettles(s, c, s2, c2, stat, drv, inserted, wp);
    } else {
      StatusNoDisk(s, c, stat, drv, inserted, wp);
      StatusProtect(s, c, stat, wp);
      Refresh(r.val, wp);
    }
  }

  lemma Refresh(v: byte, wp: bool)
    requires v & StaNoDisk == 0 && v & StaNoInit == 0 && (v & StaProtect != 0 <==> wp)
    ensures SocketFlags(v, 0, true, wp) == v
  {
  }

  /** disk_status reports NOINIT exactly when there is no card in drive 0,
      when NOINIT was already set, or when the card fails the CMD58 probe. */
  lemma StatusNotReady(s: seq<byte>, c: nat, stat: byte, drv: byte, inserted: bool, wp: bool)
    ensures Status(s, c, stat, drv, inserted, wp).val & StaNoInit != 0 <==>
            !Probes(stat, drv, inserted) || Command(s, c, CmdReadOcr, 0).r != 0
  {
    StatusNoDisk(s, c, stat, drv, inserted, wp);
    if drv == 0 && inserted {
      StatusNoInit(s, c, stat, wp);
    } else {
      assert (StaNoDisk | StaNoInit) & StaNoInit != 0;
    }
  }

  /** Past the NOINIT gate, PROTECT is the write-protect switch. */
  lemma StatusWriteProtect(s: seq<byte>, c: nat, stat: byte, drv: byte, inserted: bool, wp: bool)
    requires Status(s, c, stat, drv, inserted, wp).val & StaNoInit == 0
    ensures Status(s, c, stat, drv, inserted, wp).val & StaProtect != 0 <==> wp
  {
    StatusNotReady(s, c, stat, drv, inserted, wp);
    StatusProtect(s, c, stat, wp);
  }
}
