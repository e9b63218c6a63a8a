/** The pure computations of the driver: the 6-byte command frame, the
    sector-to-address conversion and the sector count derived from the CSD. */
module SdFrame {
  import opened SdDefs

  /** The low byte of a 32-bit word, as the C cast `(uint8_t)` takes it. */
  function Low8(w: u32): byte {
    (w & 0xFF) as byte
  }

  /** The sixth frame byte: the CRC7 plus end bit of CMD0(0) and of
      CMD8(0x1AA), the two commands a card checks while still in SD mode
      (see `GoIdleCrc`, `SendIfCondCrc`), otherwise a dummy CRC with the end
      bit. */
  function Trailer(cmd: byte): byte {
    if cmd == CmdSendIfCond then 0x87
    else if cmd == CmdGoIdleState then 0x95
    else 0x01
  }

  /** The command frame: start bits and index, the argument most significant
      byte first, then the trailer. */
  function CmdFrame(cmd: byte, arg: u32): seq<byte> {
    [cmd | 0x40, Low8(arg >> 24), Low8(arg >> 16), Low8(arg >> 8), Low8(arg), Trailer(cmd)]
  }

  /** The argument a card reads back out of a frame. */
  function FrameArg(f: seq<byte>): u32
    requires |f| == 6
  {
    (f[1] as u32 << 24) | (f[2] as u32 << 16) | (f[3] as u32 << 8) | f[4] as u32
  }

  /** The frame carries the argument big-endian: decoding gives it back. */
  lemma FrameArgRoundTrip(cmd: byte, arg: u32)
    ensures |CmdFrame(cmd, arg)| == 6 && FrameArg(CmdFrame(cmd, arg)) == arg
  {
  }

  /** The first frame byte has start bits 01 and identifies the command. */
  lemma FrameHead(cmd: byte, arg: u32)
    requires cmd < 0x40
    ensures CmdFrame(cmd, arg)[0] & 0xC0 == 0x40
    ensures CmdFrame(cmd, arg)[0] & 0x3F == cmd
  {
  }

  /** Every trailer carries the end bit, and only CMD0 and CMD8 carry more
      than the dummy CRC. */
  lemma TrailerCases(cmd: byte)
    ensures Trailer(cmd) & 1 == 1
    ensures Trailer(cmd) != 0x01 <==> cmd == CmdGoIdleState || cmd == CmdSendIfCond
  {
  }

  // CRC7 of a command frame (generator x^7 + x^3 + 1, fed most significant
  // bit first from a zero register), as section 4.5 of the SD Association's
  // Physical Layer Simplified Specification defines it.

  /** One bit through the CRC7 shift register. */
  function Crc7Step(crc: bv8, bit: bool): (r: bv8)
    ensures r < 0x80
  {
    var shifted := (crc << 1) & 0x7F;
    if ((crc >> 6) & 1 == 1) != bit then shifted ^ 0x09 else shifted
  }

  /** The low `n` bits of `b`, most significant first, through the register. */
  function Crc7Bits(crc: bv8, b: byte, n: nat): (r: bv8)
    requires n <= 8
    ensures n > 0 ==> r < 0x80
    decreases n
  {
    if n == 0 then crc else Crc7Bits(Crc7Step(crc, (b >> (n - 1)) & 1 == 1), b, n - 1)
  }

  /** The CRC7 register after the bytes `msg`, starting from `crc`. */
  function Crc7From(crc: bv8, msg: seq<byte>): (r: bv8)
    requires crc < 0x80
    ensures r < 0x80
    decreases |msg|
  {
    if msg == [] then crc else Crc7From(Crc7Bits(crc, msg[0], 8), msg[1..])
  }

  /** The CRC7 of a message: seven bits. */
  function Crc7(msg: seq<byte>): (r: bv8)
    ensures r < 0x80
  {
    Crc7From(0, msg)
  }

  /** The trailer of CMD0 with argument 0 is the CRC7 of its first five
      bytes followed by the end bit. */
  lemma GoIdleCrc()
    ensures (Crc7(CmdFrame(CmdGoIdleState, 0)[..5]) << 1) | 1 == Trailer(CmdGoIdleState)
  {
    var f := CmdFrame(CmdGoIdleState, 0)[..5];
    assert f == [0x40, 0x00, 0x00, 0x00, 0x00];
    assert Crc7Bits(0x00, 0x40, 8) == 0x64;
    assert Crc7Bits(0x64, 0x00, 8) == 0x6D;
    assert Crc7Bits(0x6D, 0x00, 8) == 0x66;
    assert Crc7Bits(0x66, 0x00, 8) == 0x49;
    assert Crc7Bits(0x49, 0x00, 8) == 0x4A;
    assert Crc7From(0x4A, []) == 0x4A;
    assert Crc7From(0x49, f[4..]) == 0x4A;
    assert Crc7From(0x66, f[3..]) == 0x4A;
    assert Crc7From(0x6D, f[2..]) == 0x4A;
    assert Crc7From(0x64, f[1..]) == 0x4A;
    assert Crc7(f) == 0x4A;
  }

  /** The trailer of CMD8 is the CRC7 of the frame the driver sends it with,
      argument 0x1AA (2.7-3.6 V and the check pattern 0xAA). */
  lemma SendIfCondCrc()
    ensures (Crc7(CmdFrame(CmdSendIfCond, 0x1AA)[..5]) << 1) | 1 == Trailer(CmdSendIfCond)
  {
    var f := CmdFrame(CmdSendIfCond, 0x1AA)[..5];
    assert f == [0x48, 0x00, 0x00, 0x01, 0xAA];
    assert Crc7Bits(0x00, 0x48, 8) == 0x2C;
    assert Crc7Bits(0x2C, 0x00, 8) == 0x35;
    assert Crc7Bits(0x35, 0x00, 8) == 0x0C;
    assert Crc7Bits(0x0C, 0x01, 8) == 0x58;
    assert Crc7Bits(0x58, 0xAA, 8) == 0x43;
    assert Crc7From(0x43, []) == 0x43;
    assert Crc7From(0x58, f[4..]) == 0x43;
    assert Crc7From(0x0C, f[3..]) == 0x43;
    assert Crc7From(0x35, f[2..]) == 0x43;
    assert Crc7From(0x2C, f[1..]) == 0x43;
    assert Crc7(f) == 0x43;
  }

  /** The argument of a data command: the sector itself for a block-addressed
      card, otherwise the byte offset `sector * 512`, which wraps at 2^32. */
  function SectorAddress(sector: u32, cardType: byte): u32
  {
    if cardType & CtBlock != 0 then sector else sector << 9
  }

  /** On a byte-addressed card the shift is the C `sector *= 512` on a
      32-bit word. */
  lemma ByteAddressIsProduct(sector: u32, cardType: byte)
    ensures cardType & CtBlock == 0 ==> SectorAddress(sector, cardType) == sector * 512
  {
  }

  /** On a byte-addressed card the address is 512-aligned and gives back the
      low 23 bits of the sector (all of it when the offset fits in 32 bits);
      on a block-addressed card it is the sector. */
  lemma SectorAddressSpec(sector: u32, cardType: byte)
    ensures cardType & CtBlock != 0 ==> SectorAddress(sector, cardType) == sector
    ensures cardType & CtBlock == 0 ==> SectorAddress(sector, cardType) & 0x1FF == 0
    ensures cardType & CtBlock == 0 ==> SectorAddress(sector, cardType) >> 9 == sector & 0x7F_FFFF
    ensures cardType & CtBlock == 0 && sector < 0x80_0000 ==> SectorAddress(sector, cardType) >> 9 == sector
  {
    ByteAddressAligned(sector, cardType);
    ByteAddressInverse(sector, cardType);
    ByteAddressExact(sector, cardType);
  }

  lemma ByteAddressAligned(sector: u32, cardType: byte)
    ensures cardType & CtBlock == 0 ==> SectorAddress(sector, cardType) & 0x1FF == 0
  {
  }

  lemma ByteAddressInverse(sector: u32, cardType: byte)
    ensures cardType & CtBlock == 0 ==> SectorAddress(sector, cardType) >> 9 == sector & 0x7F_FFFF
  {
  }

  lemma ByteAddressExact(sector: u32, cardType: byte)
    ensures cardType & CtBlock == 0 && sector < 0x80_0000 ==> SectorAddress(sector, cardType) >> 9 == sector
  {
  }

  // The CSD register (16 bytes, most significant first).

  /** CSD_STRUCTURE = 1: a version 2.0 (high capacity) CSD. */
  predicate CsdV2(csd: seq<byte>)
    requires |csd| == 16
  {
    csd[0] >> 6 == 1
  }

  /** Version 2.0: C_SIZE + 1 (computed in a 16-bit word) units of 512 KiB,
      i.e. 1024 sectors each. */
  function CsdV2Sectors(csd: seq<byte>): nat
    requires |csd| == 16
  {
    var cs := (csd[9] as int + csd[8] as int * 256 + 1) % 0x1_0000;
    cs * 1024
  }

  /** Version 1.0 / MMC: the block-length exponent READ_BL_LEN + C_SIZE_MULT + 2. */
  function CsdV1Exponent(csd: seq<byte>): nat
    requires |csd| == 16
  {
    (csd[5] & 15) as int + ((csd[10] & 128) >> 7) as int + ((csd[9] & 3) as int) * 2 + 2
  }

  /** Version 1.0 / MMC: C_SIZE + 1. */
  function CsdV1Size(csd: seq<byte>): nat
    requires |csd| == 16
  {
    (csd[8] >> 6) as int + csd[7] as int * 4 + (csd[6] & 3) as int * 1024 + 1
  }

  function Pow2(k: nat): (p: nat)
    ensures p >= 1
  {
    if k == 0 then 1 else 2 * Pow2(k - 1)
  }

  /** The GET_SECTOR_COUNT value, or None where the C shift count
      `n - 9` is negative (undefined behaviour). */
  function CsdSectorCount(csd: seq<byte>): (r: Option<nat>)
    requires |csd| == 16
  {
    if CsdV2(csd) then Some(CsdV2Sectors(csd))
    else if CsdV1Exponent(csd) >= 9 then Some(CsdV1Size(csd) * Pow2(CsdV1Exponent(csd) - 9))
    else None
  }

  /** Bounds of the two formulas: a version 2.0 count is a multiple of 1024
      below 2^26; a version 1.0 exponent lies in 2..24 and C_SIZE + 1 in 1..4096,
      so every defined count fits in the 32-bit result word. */
  lemma CsdSectorCountBounds(csd: seq<byte>)
    requires |csd| == 16
    ensures CsdV2(csd) ==> CsdSectorCount(csd) == Some(CsdV2Sectors(csd))
    ensures CsdV2Sectors(csd) % 1024 == 0 && CsdV2Sectors(csd) < 0x400_0000
    ensures 2 <= CsdV1Exponent(csd) <= 24
    ensures 1 <= CsdV1Size(csd) <= 4096
    ensures CsdSectorCount(csd).Some? ==> CsdSectorCount(csd).value < Two32
    ensures CsdSectorCount(csd).None? <==> !CsdV2(csd) && CsdV1Exponent(csd) < 9
  {
    CsdFieldBounds(csd);
    var cs := (csd[9] as int + csd[8] as int * 256 + 1) % 0x1_0000;
    assert CsdV2Sectors(csd) == cs * 1024;
    assert (cs * 1024) % 1024 == 0;
    if !CsdV2(csd) && CsdV1Exponent(csd) >= 9 {
      var e := CsdV1Exponent(csd) - 9;
      Pow2Mono(e, 15);
      assert Pow2(15) == 0x8000;
      MulBound(CsdV1Size(csd), Pow2(e), 4096, 0x8000);
    }
  }

  lemma CsdFieldBounds(csd: seq<byte>)
    requires |csd| == 16
    ensures 2 <= CsdV1Exponent(csd) <= 24
    ensures 1 <= CsdV1Size(csd) <= 4096
  {
    MaskBound(csd[5], 15);
    MaskBound(csd[9], 3);
    MaskBound(csd[6], 3);
    assert ((csd[10] & 128) >> 7) as int <= 1;
    assert (csd[8] >> 6) as int <= 3;
  }

  lemma MulBound(a: nat, b: nat, x: nat, y: nat)
    requires a <= x && b <= y
    ensures a * b <= x * y
  {
    assert a * b <= x * b;
    assert x * b <= x * y;
  }

  lemma MaskBound(b: byte, m: byte)
    ensures (b & m) as int <= m as int
  {
  }

  lemma {:induction false} Pow2Mono(a: nat, b: nat)
    requires a <= b
    ensures Pow2(a) <= Pow2(b)
    decreases b
  {
    if a < b { Pow2Mono(a, b - 1); }
  }

  /** An 8 GB SDHC card: C_SIZE = 0x3B37 gives (0x3B37 + 1) * 1024 sectors. */
  lemma CsdExampleSdhc()
    ensures CsdSectorCount([0x40, 0x0E, 0x00, 0x32, 0x5B, 0x59, 0x00, 0x00,
                            0x3B, 0x37, 0x7F, 0x80, 0x0A, 0x40, 0x00, 0x01]) == Some(15523840)
  {
  }

  /** A 1 GB standard-capacity card: READ_BL_LEN = 9, C_SIZE_MULT = 7 and
      C_SIZE = 4095 give 4096 << 9 sectors. */
  lemma CsdExampleSdsc()
    ensures CsdSectorCount([0x00, 0x26, 0x00, 0x32, 0x5F, 0x59, 0x83, 0xFF,
                            0xF6, 0xDB, 0xFF, 0x80, 0x16, 0x80, 0x00, 0x01]) == Some(2097152)
  {
    var csd: seq<byte> := [0x00, 0x26, 0x00, 0x32, 0x5F, 0x59, 0x83, 0xFF,
                           0xF6, 0xDB, 0xFF, 0x80, 0x16, 0x80, 0x00, 0x01];
    assert CsdV1Exponent(csd) == 18;
    assert CsdV1Size(csd) == 4096;
    assert Pow2(9) == 512;
  }
}
