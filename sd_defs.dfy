/** Types and protocol constants of the SPI-mode SD/MMC driver. The command
    indices and tokens are those of section seven ("SPI Mode") of the SD
    Association's Physical Layer Simplified Specification; the flag values
    are those of the FatFs disk interface. */
module SdDefs {

  type byte = bv8

  /** A C `DWORD`: an unsigned 32-bit word with wrap-around arithmetic. */
  type u32 = bv32

  const Two32: int := 0x1_0000_0000

  // Command indices. An application command (ACMD) carries bit 7, which makes
  // the command layer send APP_CMD (CMD55) first.
  const CmdGoIdleState: byte := 0        // CMD0
  const CmdSendOpCond: byte := 1         // CMD1 (MMC)
  const CmdSendIfCond: byte := 8         // CMD8
  const CmdSendCsd: byte := 9            // CMD9
  const CmdStopTransmission: byte := 12  // CMD12
  const CmdSetBlocklen: byte := 16       // CMD16
  const CmdReadSingleBlock: byte := 17   // CMD17
  const CmdReadMultBlock: byte := 18     // CMD18
  const CmdWriteSingleBlock: byte := 24  // CMD24
  const CmdWriteMultBlock: byte := 25    // CMD25
  const CmdAppCmd: byte := 55            // CMD55
  const CmdReadOcr: byte := 58           // CMD58
  const AcmdSendOpCond: byte := 0x80 | 41        // ACMD41
  const AcmdSetWrBlkEraseCount: byte := 0x80 | 23 // ACMD23

  /** The fill byte clocked out by a read, and the idle level of MISO. */
  const DummyByte: byte := 0xFF

  // Data tokens.
  const TokenStartBlock: byte := 0xFE
  const TokenStartMulti: byte := 0xFC
  const TokenStopTran: byte := 0xFD

  // Card type flags (CardType).
  const CtMmc: byte := 0x01
  const CtSd1: byte := 0x02
  const CtSd2: byte := 0x04
  const CtSdc: byte := 0x06
  const CtBlock: byte := 0x08

  // Disk status flags (DSTATUS).
  const StaNoInit: byte := 0x01
  const StaNoDisk: byte := 0x02
  const StaProtect: byte := 0x04

  // disk_ioctl control codes.
  const CtrlSync: byte := 0
  const GetSectorCount: byte := 1
  const GetBlockSize: byte := 3

  /** FatFs DRESULT. */
  datatype DResult = ResOk | ResError | ResWrPrt | ResNotRdy | ResParErr

  /** Poll bounds of the wait loops. */
  const ReadyPolls: nat := 5000
  const TokenPolls: nat := 1000
  const ResponsePolls: nat := 10
  const IdleRetries: nat := 1000

  const SectorSize: nat := 512

  datatype Option<T> = None | Some(value: T)
}
