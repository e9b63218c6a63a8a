# SPI-mode SD/MMC driver for the STM32F407 Discovery board, in Dafny

This project models the FatFs disk driver `stm32_spi_sd.c`, which runs an
SD or MMC card over SPI. The driver exposes `disk_status`,
`disk_initialize`, `disk_read`, `disk_write` and `disk_ioctl`. It is built
in four layers:

- the byte transport (`SD_ReadByte`, `SD_WriteByte`, `rcvr_mmc`, `xmit_mmc`);
- the bounded waits (`wait_ready`, `select`, `deselect`) and the framed
  command `send_cmd`, with the CMD55 prefix of application commands;
- the data-block layer (`rcvr_datablock`, `xmit_datablock`), with start and
  stop tokens, dummy CRC bytes and the data-response token;
- the card-type state machine inside `disk_initialize`, which follows
  the SPI-mode initialisation flow of section 7.2.1 of the SD Association's
  Physical Layer Simplified Specification.

## How the model works

**The card is a script.** The card is described by the bytes it drives on
MISO, one per byte-clock: `script[i]` is the byte seen at clock `i`. Past
the end of the script the pulled-up line reads 0xFF. Every exchange on the
link takes one clock, and a read clocks out the fill byte 0xFF. So the
bytes the driver has sent (`sent`) also give the current clock, `|sent|`.
Whatever a routine does is then a function of the script and the clock at
which it starts.

**The modules:**

- `SdDefs`: the constants (command indices, tokens, card-type and status
  flags, poll bounds).
- `SdWire`: the script, the polling loops and buffer overwrites.
- `SdFrame`: the pure computations (the command frame, the sector address,
  the CSD capacity formulas).
- `SdCommand`, `SdBlock`, `SdStatus`, `SdInit` and `SdDisk`: one
  specification function per driver routine. Each gives the routine's
  result, the bytes it puts on MOSI and the state it leaves behind, and the
  lemmas beside it state what the routine promises.

**The driver.** `SdDriver.Session` is the driver in its own imperative
form. The C file's module state (`Stat`, `CardType`), the chip-select line
and the MOSI log are fields of one session object. Each C routine is a
method with the same loops and branches, and each method is proved to
give exactly what its specification function says: the same result, the
same bytes on the link and the same caller buffer. The entry points
(`DiskStatus`, `DiskInitialize`, `DiskRead`, `DiskWrite`, `DiskIoctl`) and
the command layer below them (`Select`, `Issue`, `SendCmd`,
`CheckInitialized`, `Conclude`) also state the new `Stat`, `CardType` and
CS line. The helpers in between (the transfer, initialisation and ioctl
steps) state their result and bytes only; the CS line they leave is settled
by the final `deselect` of the entry point that calls them.

**Proof devices.** `Command`, `ReadPacket`, `WritePacket` and `Overwrite`
are one-step recursive wrappers around `SendCmd`, `RcvrBlock`, `XmitBlock`
and the buffer splice. They keep the verifier from expanding those bodies
in the proofs of the layers above. `CommandIs`, `ReadPacketIs`,
`WritePacketIs` and `OverwriteIs` state that each wrapper equals the
function it wraps, and `CommandPlain` and `CommandPrefixed` open `Command`
one branch of `SendCmd` at a time.

**Where the code is followed.** In a few places the code does something
other than a quick reading of the driver suggests, and the model follows
the code:

- `disk_status` ends its CMD58 probe with `SD_CS_HIGH` only. That is no
  `deselect`, so there is no dummy clock after the four OCR bytes.
- `disk_read` and `disk_write` return RES_NOTRDY, RES_WRPRT or RES_PARERR
  from their gates without calling `deselect`, and `disk_ioctl` returns
  RES_NOTRDY from its gate the same way. The CS line is then whatever
  `disk_status` left. An unknown control code passes that gate, so its
  RES_PARERR does go through the final `deselect`.
- `disk_status` writes `Stat` even for a drive number other than 0. So
  asking for drive 1 marks drive 0 NODISK|NOINIT as well.

## Model

| member | source | states |
|---|---|---|
| SdDriver.Session.constructor | Library/STM32F407-Discovery/stm32_spi_sd.c:58-64 | a new session has sent nothing, has the card deselected, `Stat` = STA_NOINIT and `CardType` = 0; the socket inputs INS/WP are session parameters |
| SdDriver.Session.ReadByte | Library/STM32F407-Discovery/stm32_spi_sd.c:423-441 | one clock: 0xFF goes out on MOSI and the card's byte at that clock comes back |
| SdDriver.Session.WriteByte | Library/STM32F407-Discovery/stm32_spi_sd.c:401-416 | one clock: the given byte goes out and the card's byte at that clock comes back |
| SdDriver.Session.CsHigh | Library/STM32F407-Discovery/stm32_spi_sd.c:319 | `SD_CS_HIGH`: the card is deselected; nothing is clocked, so the bytes sent are unchanged |
| SdDriver.Session.CsLow | Library/STM32F407-Discovery/stm32_spi_sd.c:328 | `SD_CS_LOW`: the card is selected; nothing is clocked, so the bytes sent are unchanged |
| SdDriver.Session.RcvrMmc | Library/STM32F407-Discovery/stm32_spi_sd.c:84-94 | `bc` reads; the buffer holds the `bc` card bytes, in order, from the given offset, and is unchanged elsewhere |
| SdDriver.Session.XmitMmc | Library/STM32F407-Discovery/stm32_spi_sd.c:99-110 | exactly the `bc` buffer bytes from the offset go out, in order |
| SdDriver.Session.WaitReady | Library/STM32F407-Discovery/stm32_spi_sd.c:298-312 | the countdown loop does what `SdCommand.WaitReady` specifies (see `SdCommand.WaitReadySpec`) |
| SdDriver.Session.Deselect | Library/STM32F407-Discovery/stm32_spi_sd.c:317-321 | CS goes high, then one dummy clock |
| SdDriver.Session.Select | Library/STM32F407-Discovery/stm32_spi_sd.c:326-335 | the card is left selected exactly when select succeeds, and the bytes sent are those of `SdCommand.Select` |
| SdDriver.Session.SendCmd | Library/STM32F407-Discovery/stm32_spi_sd.c:346-392 | the reply, the bytes sent and the CS line are those of `SdCommand.SendCmd`, including the one-level recursion for the CMD55 prefix |
| SdDriver.Session.Issue | Library/STM32F407-Discovery/stm32_spi_sd.c:360-391 | the part after the prefix (deselect, select, frame, R1 poll) matches `SdCommand.Issue` |
| SdDriver.Session.Transact | Library/STM32F407-Discovery/stm32_spi_sd.c:366-391 | the six frame bytes from the command and argument, the CMD12 stuff byte and the R1 poll match `SdCommand.Transact` |
| SdDriver.Session.RcvrResponse | Library/STM32F407-Discovery/stm32_spi_sd.c:386-391 | the do-while R1 loop returns the byte where the bounded poll for bit 7 clear stops, after exactly that many reads |
| SdDriver.Session.RcvrToken | Library/STM32F407-Discovery/stm32_spi_sd.c:249-254 | the token loop returns the first non-0xFF byte within 1000 reads (or the 1000th byte), after exactly that many reads |
| SdDriver.Session.RcvrDatablock | Library/STM32F407-Discovery/stm32_spi_sd.c:240-262 | succeeds exactly when `SdBlock.ReadPacket` does; on success the buffer receives the packet's payload at the offset, on failure it is untouched |
| SdDriver.Session.XmitDatablock | Library/STM32F407-Discovery/stm32_spi_sd.c:269-290 | result and bytes sent are those of `SdBlock.XmitBlock` for the 512-byte block at the offset, or for no data with STOP_TRAN |
| SdDriver.Session.DiskStatus | Library/STM32F407-Discovery/stm32_spi_sd.c:446-471 | returns and stores in `Stat` the value of `SdStatus.Status`; CS goes high when the card was probed and is otherwise unchanged |
| SdDriver.Session.CheckInitialized | Library/STM32F407-Discovery/stm32_spi_sd.c:461-466 | CMD58, then four OCR reads and CS high; NOINIT is added exactly when CMD58 answers nonzero |
| SdDriver.Session.Identify | Library/STM32F407-Discovery/stm32_spi_sd.c:494-527 | the card type is the verdict of `SdInit.Machine` from CMD0 on, with its bytes |
| SdDriver.Session.RetryCmd | Library/STM32F407-Discovery/stm32_spi_sd.c:519-523 | the 1000-try countdown loop matches the reference `SdInit.Retry` |
| SdDriver.Session.IdentifyV2 | Library/STM32F407-Discovery/stm32_spi_sd.c:498-510 | the R7 echo check and the SDv2 branch match `SdInit.Machine` from the echo phase |
| SdDriver.Session.AwaitV2 | Library/STM32F407-Discovery/stm32_spi_sd.c:501-509 | the ACMD41(HCS) loop and CMD58 match `SdInit.Machine` from `WaitV2(1000)` |
| SdDriver.Session.ReadCcs | Library/STM32F407-Discovery/stm32_spi_sd.c:506-509 | CMD58, then SDv2 with CT_BLOCK exactly when OCR byte 0 has bit 0x40 |
| SdDriver.Session.IdentifyV1 | Library/STM32F407-Discovery/stm32_spi_sd.c:511-526 | the SDv1/MMC probe, its countdown loop and SET_BLOCKLEN match `SdInit.Machine` from `ProbeV1` |
| SdDriver.Session.PowerUp | Library/STM32F407-Discovery/stm32_spi_sd.c:490-527 | exactly ten dummy bytes, then the state machine from CMD0 |
| SdDriver.Session.DiskInitialize | Library/STM32F407-Discovery/stm32_spi_sd.c:476-558 | `Stat`, `CardType`, the result and the bytes sent are those of `SdInit.Initialize`; a present card is left deselected |
| SdDriver.Session.Conclude | Library/STM32F407-Discovery/stm32_spi_sd.c:528-556 | `CardType` takes the verdict, NOINIT follows it (`SdInit.InitStat`), and the final deselect clocks one byte |
| SdDriver.Session.RcvrBlocks | Library/STM32F407-Discovery/stm32_spi_sd.c:588-592 | the packet loop, advancing the buffer by 512 each time, matches `SdDisk.ReadBlocks` in outstanding count, bytes sent and buffer contents |
| SdDriver.Session.ReadSingleBlock | Library/STM32F407-Discovery/stm32_spi_sd.c:582-585 | CMD17, then one packet into the buffer, as `SdDisk.ReadSingle` |
| SdDriver.Session.ReadMultiBlock | Library/STM32F407-Discovery/stm32_spi_sd.c:586-594 | CMD18, the packet loop, then CMD12 only when CMD18 was accepted, as `SdDisk.ReadMulti` |
| SdDriver.Session.ReadSectors | Library/STM32F407-Discovery/stm32_spi_sd.c:579-595 | the address conversion and the single or multi read, as `SdDisk.ReadTransfer` |
| SdDriver.Session.DiskRead | Library/STM32F407-Discovery/stm32_spi_sd.c:565-599 | result, `Stat`, bytes sent and buffer are those of `SdDisk.Read`; past the gates the card ends deselected |
| SdDriver.Session.XmitBlocks | Library/STM32F407-Discovery/stm32_spi_sd.c:633-637 | the chunk loop with token 0xFC matches `SdDisk.WriteBlocks` from chunk 0 |
| SdDriver.Session.WriteSingleBlock | Library/STM32F407-Discovery/stm32_spi_sd.c:625-628 | CMD24, then one packet with token 0xFE, as `SdDisk.WriteSingle` |
| SdDriver.Session.WriteMultiBlock | Library/STM32F407-Discovery/stm32_spi_sd.c:629-640 | the ACMD23 hint, CMD25, the chunk loop and the STOP_TRAN close, as `SdDisk.WriteMulti` |
| SdDriver.Session.XmitStream | Library/STM32F407-Discovery/stm32_spi_sd.c:633-639 | the chunk loop, then the 0xFD token; a rejected close leaves one block outstanding |
| SdDriver.Session.SendEraseHint | Library/STM32F407-Discovery/stm32_spi_sd.c:630-631 | ACMD23(count) is sent only to an SD card, and its reply is ignored |
| SdDriver.Session.WriteSectors | Library/STM32F407-Discovery/stm32_spi_sd.c:622-641 | the address conversion and the single or multi write, as `SdDisk.WriteTransfer` |
| SdDriver.Session.DiskWrite | Library/STM32F407-Discovery/stm32_spi_sd.c:606-645 | result, `Stat` and bytes sent are those of `SdDisk.Write`; past the gates the card ends deselected |
| SdDriver.Session.DiskIoctl | Library/STM32F407-Discovery/stm32_spi_sd.c:652-700 | result, `Stat`, bytes sent and the value stored through `buff` are those of `SdDisk.Ioctl`; past the gate the card ends deselected |
| SdDriver.Session.Control | Library/STM32F407-Discovery/stm32_spi_sd.c:665-695 | the switch on the control code, as `SdDisk.Dispatch` |
| SdDriver.Session.ReadSectorCount | Library/STM32F407-Discovery/stm32_spi_sd.c:674-686 | CMD9 and the 16-byte CSD packet; on success the stored count comes from the CSD formulas |
| SdDriver.Session.ReceiveCsd | Library/STM32F407-Discovery/stm32_spi_sd.c:675 | the CSD packet is received as `SdBlock.ReadPacket` of 16 bytes |
| SdWire.PollSpec | Library/STM32F407-Discovery/stm32_spi_sd.c:304-309 | a bounded poll ends at the first byte meeting its stop condition, or after `n` reads, and returns the last byte read |
| SdWire.PollEndIs | Library/STM32F407-Discovery/stm32_spi_sd.c:386-389 | conversely, a clock with no stopping byte before it, where the condition holds or the bound is reached, is where the poll ends |
| SdWire.PollFinds | Library/STM32F407-Discovery/stm32_spi_sd.c:249-254 | a poll meets its condition exactly when some byte within the bound does, and then it stops at the first one |
| SdWire.OverwriteAt | Library/STM32F407-Discovery/stm32_spi_sd.c:90-93 | storing bytes into a buffer keeps its length, puts the bytes at the offset and leaves every other byte |
| SdWire.OverwriteTwice | Library/STM32F407-Discovery/stm32_spi_sd.c:588-592 | filling a buffer with `d` and then, from `|d|` on, with `e` fills it with `d + e` |
| SdWire.OverwriteNothing | Library/STM32F407-Discovery/stm32_spi_sd.c:255-256 | storing nothing leaves a buffer as it was, as a packet that fails before its payload does |
| SdFrame.CmdFrame | Library/STM32F407-Discovery/stm32_spi_sd.c:366-377 | the model of the frame send_cmd builds; its properties are in `SdFrame.FrameArgRoundTrip`, `SdFrame.FrameHead`, `SdFrame.TrailerCases`, `SdFrame.GoIdleCrc` and `SdFrame.SendIfCondCrc` |
| SdFrame.SectorAddress | Library/STM32F407-Discovery/stm32_spi_sd.c:579-580 | the model of the LBA-to-address conversion; its properties are in `SdFrame.ByteAddressIsProduct` and `SdFrame.SectorAddressSpec` |
| SdFrame.CsdSectorCount | Library/STM32F407-Discovery/stm32_spi_sd.c:676-683 | the model of the two CSD capacity formulas, with no value where the C shift is undefined; see `SdFrame.CsdSectorCountBounds` and the two worked examples |
| SdFrame.FrameArgRoundTrip | Library/STM32F407-Discovery/stm32_spi_sd.c:366-370 | the frame carries the argument most significant byte first: decoding bytes 1 to 4 gives it back |
| SdFrame.FrameHead | Library/STM32F407-Discovery/stm32_spi_sd.c:366 | the first frame byte has start bits 01 and the command index |
| SdFrame.TrailerCases | Library/STM32F407-Discovery/stm32_spi_sd.c:372-377 | every trailer has the end bit set, and only CMD0 and CMD8 carry anything but the dummy CRC 0x01 |
| SdFrame.GoIdleCrc | Library/STM32F407-Discovery/stm32_spi_sd.c:374 | 0x95 is the CRC7 (generator x^7 + x^3 + 1) of the first five bytes of CMD0(0), followed by the end bit |
| SdFrame.SendIfCondCrc | Library/STM32F407-Discovery/stm32_spi_sd.c:376 | 0x87 is the CRC7 of the first five bytes of CMD8(0x1AA), followed by the end bit |
| SdFrame.ByteAddressIsProduct | Library/STM32F407-Discovery/stm32_spi_sd.c:579-580 | for every card type without CT_BLOCK the byte address is `sector * 512` on a 32-bit word |
| SdFrame.SectorAddressSpec | Library/STM32F407-Discovery/stm32_spi_sd.c:579-580 | with CT_BLOCK the address is the sector; otherwise it is 512-aligned and gives back the low 23 bits of the sector, and the whole sector below 2^23 |
| SdFrame.CsdSectorCountBounds | Library/STM32F407-Discovery/stm32_spi_sd.c:676-683 | a v2.0 count is a multiple of 1024 below 2^26; the v1.0 exponent is 2 to 24 and C_SIZE+1 is 1 to 4096; every defined count fits a DWORD; the count is undefined exactly for a v1.0 exponent below 9 |
| SdFrame.CsdFieldBounds | Library/STM32F407-Discovery/stm32_spi_sd.c:680-681 | the ranges of the v1.0 exponent and of C_SIZE+1 |
| SdFrame.CsdExampleSdhc | Library/STM32F407-Discovery/stm32_spi_sd.c:676-678 | an 8 GB SDHC CSD gives 15523840 sectors |
| SdFrame.CsdExampleSdsc | Library/STM32F407-Discovery/stm32_spi_sd.c:679-682 | a 1 GB standard-capacity CSD gives 2097152 sectors |
| SdCommand.WaitReady | Library/STM32F407-Discovery/stm32_spi_sd.c:298-312 | the model of wait_ready; see `SdCommand.WaitReadySpec` and `SdBlock.WaitReadyLength` |
| SdCommand.Select | Library/STM32F407-Discovery/stm32_spi_sd.c:326-335 | the model of select; see `SdCommand.SelectSpec` and `SdCommand.SelectFills` |
| SdCommand.Transact | Library/STM32F407-Discovery/stm32_spi_sd.c:366-391 | the model of the frame and R1 exchange of send_cmd; see `SdCommand.TransactFrame` and `SdCommand.ResponsePollSpec` |
| SdCommand.Issue | Library/STM32F407-Discovery/stm32_spi_sd.c:360-391 | the model of send_cmd past its prefix; see `SdCommand.IssueTimeout`, `SdCommand.IssueFrame` and `SdCommand.IssueResponse` |
| SdCommand.SendCmd | Library/STM32F407-Discovery/stm32_spi_sd.c:346-392 | the model of send_cmd; see `SdCommand.AcmdFrames`, `SdCommand.IssueFrame`, `SdCommand.IssueResponse`, `SdCommand.SendCmdSelected` and `SdCommand.SendCmdNonEmpty` |
| SdCommand.AcmdFrames | Library/STM32F407-Discovery/stm32_spi_sd.c:353-358 | an application command first puts the framed CMD55(0) on the link; a CMD55 reply above 1 is the result and nothing more is sent; otherwise the frame of the index with bit 7 cleared follows |
| SdCommand.WaitReadySpec | Library/STM32F407-Discovery/stm32_spi_sd.c:304-311 | wait_ready succeeds exactly when a 0xFF arrives within 5000 reads, stops right after the first one, and takes all 5000 reads on timeout |
| SdCommand.SelectSpec | Library/STM32F407-Discovery/stm32_spi_sd.c:326-335 | select succeeds exactly when 0xFF arrives within 5000 reads after the dummy clock; a failure takes 5002 clocks; only fill bytes are sent |
| SdCommand.SelectFills | Library/STM32F407-Discovery/stm32_spi_sd.c:328-333 | select clocks nothing but fill bytes |
| SdCommand.IssueTimeout | Library/STM32F407-Discovery/stm32_spi_sd.c:361-363 | after a select timeout the reply is 0xFF, the card is deselected and no frame was sent |
| SdCommand.IssueFrame | Library/STM32F407-Discovery/stm32_spi_sd.c:366-389 | after the deselect and select clocks, exactly the six frame bytes go out, then the CMD12 stuff byte and 1 to 10 reply reads |
| SdCommand.TransactFrame | Library/STM32F407-Discovery/stm32_spi_sd.c:379-389 | the exchange is the frame followed only by fill bytes: the stuff byte and 1 to 10 reads |
| SdCommand.IssueResponse | Library/STM32F407-Discovery/stm32_spi_sd.c:384-391 | the reply is the first reply read with bit 7 clear, or the 10th read when none has |
| SdCommand.ResponsePollSpec | Library/STM32F407-Discovery/stm32_spi_sd.c:386-389 | the R1 poll with its stop condition written out |
| SdCommand.SendCmdSelected | Library/STM32F407-Discovery/stm32_spi_sd.c:361-363 | a reply with bit 7 clear always comes from a selected card |
| SdCommand.SendCmdNonEmpty | Library/STM32F407-Discovery/stm32_spi_sd.c:346-392 | every command clocks at least the deselect byte, the select byte and one ready poll |
| SdBlock.RcvrBlock | Library/STM32F407-Discovery/stm32_spi_sd.c:240-262 | the model of rcvr_datablock for a byte count of at least 1, as rcvr_mmc needs; see `SdBlock.RcvrBlockFinds` and `SdBlock.RcvrBlockOk` |
| SdBlock.XmitBlock | Library/STM32F407-Discovery/stm32_spi_sd.c:269-290 | the model of xmit_datablock; see `SdBlock.XmitBlockSpec` |
| SdBlock.ReadPacket | Library/STM32F407-Discovery/stm32_spi_sd.c:258 | a received payload has exactly `btr` bytes |
| SdBlock.RcvrBlockFinds | Library/STM32F407-Discovery/stm32_spi_sd.c:249-256 | rcvr_datablock succeeds exactly when 0xFE arrives within 1000 reads after nothing but 0xFF; a failure reads only fill-byte clocks, at most 1000 |
| SdBlock.RcvrBlockOk | Library/STM32F407-Discovery/stm32_spi_sd.c:249-261 | on success the payload is the `btr` bytes right after the token, and exactly two CRC bytes follow |
| SdBlock.ReadPacketOk | Library/STM32F407-Discovery/stm32_spi_sd.c:255-258 | the same for a packet as the transfers see it |
| SdBlock.TokenPollSpec | Library/STM32F407-Discovery/stm32_spi_sd.c:249-254 | the token poll with its stop condition written out; it ends on 0xFF only after all 1000 reads |
| SdBlock.XmitBlockSpec | Library/STM32F407-Discovery/stm32_spi_sd.c:276-289 | a busy card gets nothing but the wait; STOP_TRAN sends only the token and succeeds; otherwise token, payload and three clocks, with success exactly when the response has low bits 00101 |
| SdBlock.WaitReadyLength | Library/STM32F407-Discovery/stm32_spi_sd.c:304-311 | a timed-out wait has read 5000 fill bytes |
| SdStatus.Status | Library/STM32F407-Discovery/stm32_spi_sd.c:446-471 | the model of disk_status; see `SdStatus.StatusNoDisk`, `SdStatus.StatusProtect`, `SdStatus.StatusNoInit`, `SdStatus.StatusNotReady`, `SdStatus.StatusSettles` and `SdStatus.StatusRepeat` |
| SdStatus.StatusNoDisk | Library/STM32F407-Discovery/stm32_spi_sd.c:453-454 | NODISK is reported exactly for another drive or an empty socket, and then with NOINIT and without a byte sent |
| SdStatus.StatusProtect | Library/STM32F407-Discovery/stm32_spi_sd.c:455-460 | for a present card PROTECT mirrors the switch and the upper bits are kept |
| SdStatus.StatusNoInit | Library/STM32F407-Discovery/stm32_spi_sd.c:461-465 | NOINIT is set exactly when it was already set or CMD58 answers nonzero; CMD58 and four OCR reads are sent only when it was clear |
| SdStatus.StatusNotReady | Library/STM32F407-Discovery/stm32_spi_sd.c:452-466 | NOINIT is reported exactly when the card is not probed or fails the CMD58 probe |
| SdStatus.StatusWriteProtect | Library/STM32F407-Discovery/stm32_spi_sd.c:455-460 | past the NOINIT gate, PROTECT is the write-protect switch |
| SdStatus.StatusSettles | Library/STM32F407-Discovery/stm32_spi_sd.c:453-468 | once NOINIT is reported, a second call on any card returns the same status and sends nothing |
| SdStatus.StatusRepeat | Library/STM32F407-Discovery/stm32_spi_sd.c:446-471 | a second call on the returned status gives the same flags whenever the card still passes CMD58 |
| SdInit.Machine | Library/STM32F407-Discovery/stm32_spi_sd.c:494-527 | the model of the card-type state machine; see `SdInit.GoIdleGate`, `SdInit.V2Verdict`, `SdInit.V1Verdict` and `SdInit.MachineKnown` |
| SdInit.Initialize | Library/STM32F407-Discovery/stm32_spi_sd.c:476-558 | the model of disk_initialize; see `SdInit.InitializeSpec` and `SdInit.SilentCardUnknown` |
| SdInit.WaitV2Retry | Library/STM32F407-Discovery/stm32_spi_sd.c:501-506 | the ACMD41(HCS) countdown equals the reference retry loop: on success it goes on to CMD58, otherwise no type after exactly those tries |
| SdInit.WaitV1Retry | Library/STM32F407-Discovery/stm32_spi_sd.c:519-524 | the SDv1/MMC countdown equals the reference retry loop, going on to SET_BLOCKLEN |
| SdInit.MachineKnown | Library/STM32F407-Discovery/stm32_spi_sd.c:494-527 | whatever the card answers, the type is 0, MMC, SDv1, SDv2 or SDv2 with CT_BLOCK |
| SdInit.GoIdleGate | Library/STM32F407-Discovery/stm32_spi_sd.c:495 | a type is found only when CMD0 answers exactly 1; any other answer ends initialisation with type 0 |
| SdInit.V2Verdict | Library/STM32F407-Discovery/stm32_spi_sd.c:496-510 | when CMD8 answers 1, the type is SDv2 (with CT_BLOCK iff the OCR CCS bit) exactly when the echo is 01 AA, ACMD41 reaches 0 within 1000 tries and CMD58 answers 0, else 0, with no fall back to SDv1/MMC |
| SdInit.V1Verdict | Library/STM32F407-Discovery/stm32_spi_sd.c:511-526 | otherwise a probe reply of at most 1 means SDv1 via ACMD41, else MMC via CMD1; the type stands exactly when that command reaches 0 within 1000 tries and SET_BLOCKLEN answers 0 |
| SdInit.InitStatSpec | Library/STM32F407-Discovery/stm32_spi_sd.c:529-532 | NOINIT is cleared exactly when a type was found; the other status bits are kept |
| SdInit.InitializeSpec | Library/STM32F407-Discovery/stm32_spi_sd.c:476-558 | an absent card returns NODISK and NOINIT, with `CardType` untouched; otherwise `CardType` is the machine's verdict, a known type, and NOINIT is clear exactly when it is nonzero |
| SdInit.SilentCommand | Library/STM32F407-Discovery/stm32_spi_sd.c:386-391 | a card that never drives MISO answers every plain command with 0xFF |
| SdInit.SilentCardUnknown | Library/STM32F407-Discovery/stm32_spi_sd.c:494-533 | on a silent socket initialisation finds no type and leaves NOINIT set |
| SdDisk.ReadBlocks | Library/STM32F407-Discovery/stm32_spi_sd.c:588-592 | the read loop stores 512 bytes per block that arrived and never more blocks than asked |
| SdDisk.ReadSingle | Library/STM32F407-Discovery/stm32_spi_sd.c:582-585 | a single read stores a full block or nothing |
| SdDisk.ReadMulti | Library/STM32F407-Discovery/stm32_spi_sd.c:586-594 | a multi read stores 512 bytes per block that arrived; when CMD12 is sent is in `SdDisk.ReadMultiStops` |
| SdDisk.ReadTransfer | Library/STM32F407-Discovery/stm32_spi_sd.c:579-595 | the transfer stores 512 bytes per block that arrived |
| SdDisk.Read | Library/STM32F407-Discovery/stm32_spi_sd.c:565-599 | RES_OK exactly when all `count` blocks were stored, `count` is nonzero and NOINIT is clear; never more than `count * 512` bytes are stored |
| SdDisk.WriteBlocks | Library/STM32F407-Discovery/stm32_spi_sd.c:633-637 | the write loop never has more outstanding blocks than it was asked to send; its split and success are in `SdDisk.WriteBlocksSplit` and `SdDisk.WriteMultiOk` |
| SdDisk.WriteSingle | Library/STM32F407-Discovery/stm32_spi_sd.c:625-628 | the model of the single-block write: CMD24, then one packet with token 0xFE; see `SdBlock.XmitBlockSpec` |
| SdDisk.EraseHint | Library/STM32F407-Discovery/stm32_spi_sd.c:630-631 | the model of the ACMD23 hint; see `SdDisk.EraseHintOnlySd` |
| SdDisk.WriteMulti | Library/STM32F407-Discovery/stm32_spi_sd.c:629-640 | the model of the multi-block write; see `SdDisk.WriteMultiOk`, `SdDisk.WriteMultiCloses` and `SdDisk.WriteBlocksSplit` |
| SdDisk.WriteTransfer | Library/STM32F407-Discovery/stm32_spi_sd.c:622-641 | the model of the address conversion and transfer of disk_write; see `SdDisk.WriteGates` |
| SdDisk.Write | Library/STM32F407-Discovery/stm32_spi_sd.c:606-645 | the model of disk_write; see `SdDisk.WriteGates` and `SdDisk.WriteMultiOk` |
| SdDisk.CsdStored | Library/STM32F407-Discovery/stm32_spi_sd.c:674-683 | the value GET_SECTOR_COUNT stores, from `SdFrame.CsdSectorCount`; see `SdDisk.IoctlSpec` |
| SdDisk.Dispatch | Library/STM32F407-Discovery/stm32_spi_sd.c:665-695 | the model of the control-code switch of disk_ioctl; see `SdDisk.IoctlSpec` |
| SdDisk.Ioctl | Library/STM32F407-Discovery/stm32_spi_sd.c:652-700 | the model of disk_ioctl; see `SdDisk.IoctlSpec` |
| SdDisk.ReadBlocksSplit | Library/STM32F407-Discovery/stm32_spi_sd.c:588-592 | reading `a + b` blocks is reading `a` and then, if all arrived, `b` more; the first failure ends the loop with every later block outstanding |
| SdDisk.ReadBlocksChunk | Library/STM32F407-Discovery/stm32_spi_sd.c:588-592 | block `k` of what the loop stores is the payload of the packet read right after the first `k` blocks: the 512 bytes the card sent after the 0xFE token that ended that packet's token poll, at most 1000 clocks in |
| SdDisk.ReadBlocksPacket | Library/STM32F407-Discovery/stm32_spi_sd.c:588-592 | block `k` is the payload of packet `k`, which starts where the loop over the first `k` blocks ended, all of those received |
| SdDisk.WriteBlocksSplit | Library/STM32F407-Discovery/stm32_spi_sd.c:633-637 | writing `a + b` chunks is writing `a` and then, if all were accepted, `b` more; the first rejection ends the loop with every later chunk outstanding |
| SdDisk.ReadMultiStops | Library/STM32F407-Discovery/stm32_spi_sd.c:586-594 | a rejected CMD18 ends the read with nothing stored and every block outstanding; otherwise the blocks that arrived are stored and the framed CMD12 follows the packet loop, whether or not a packet failed |
| SdDisk.WriteMultiCloses | Library/STM32F407-Discovery/stm32_spi_sd.c:629-640 | a rejected CMD25 ends the write after the hint and the command, every block outstanding; otherwise, even after a rejected chunk, the wait and the 0xFD token follow the loop, and a card that stays busy leaves one block outstanding |
| SdDisk.WriteMultiOk | Library/STM32F407-Discovery/stm32_spi_sd.c:629-640 | a multi write succeeds exactly when CMD25 is accepted, every chunk is accepted and STOP_TRAN is taken; a rejected close fails the write |
| SdDisk.EraseHintOnlySd | Library/STM32F407-Discovery/stm32_spi_sd.c:630-631 | an MMC card gets no ACMD23; an SD card gets the whole ACMD23 exchange with the block count as its argument, its reply unused |
| SdDisk.ReadGates | Library/STM32F407-Discovery/stm32_spi_sd.c:574-598 | RES_NOTRDY exactly when the status reports NOINIT; RES_PARERR exactly for count 0 past that; both store nothing; otherwise the transfer and a deselect clock, with RES_OK exactly when no block is outstanding |
| SdDisk.WriteGates | Library/STM32F407-Discovery/stm32_spi_sd.c:615-644 | RES_NOTRDY, then RES_WRPRT exactly with the switch, then RES_PARERR for count 0; otherwise the transfer and a deselect clock, with RES_OK exactly when no block is outstanding |
| SdDisk.IoctlSpec | Library/STM32F407-Discovery/stm32_spi_sd.c:662-699 | RES_NOTRDY exactly when NOINIT; CTRL_SYNC is RES_OK exactly when select succeeds; GET_SECTOR_COUNT is RES_OK exactly when CMD9 answers 0 and the CSD arrives, and then stores its count; GET_BLOCK_SIZE stores 128; other codes give RES_PARERR; a value is stored only on success |

## Left out

- `SD_SPI_Init` and `SD_SPI_DeInit` (GPIO, clock and SPI peripheral set-up) are not modelled, including the call at the start of `disk_initialize`. They do not touch the card protocol.
- `SD_ReadByte` and `SD_WriteByte` spin on SPI status flags. They are modelled as one clock each against the card's script, with no flag waits.
- `dly_us` (which calls `delay_ms(n / 100)`) is not modelled. The card is a script indexed by byte clock, so the 1 ms waits between token and ready polls and the 10 ms waits between ACMD41/CMD1 tries have no counterpart; the model counts poll iterations but no time.
- `get_fattime` is a constant FatFs timestamp and is not modelled.
- The `#if 0` blocks are dead code and are not modelled.
- The INS and WP socket macros are the constants 1 and 0 in the source. The model makes them session parameters, so that the NODISK and PROTECT paths are covered.
- The CS macros are modelled as the `selected` flag only.
- SdDriver.Session.RcvrMmc: requires `bc >= 1`. The C do-while with `bc == 0` would wrap and run 2^32 times, and no caller passes 0.
- SdDriver.Session.XmitMmc: requires `bc >= 1`, for the same reason.
- SdDriver.Session.DiskRead: requires a buffer of `count * 512` bytes, which the C code takes on trust from its caller.
- SdDriver.Session.DiskWrite: requires data of `count * 512` bytes, for the same reason.
- SdDriver.Session.DiskWrite: the source buffer is modelled as an immutable sequence, so aliasing between the written data and the driver's state is not modelled.
- SdDriver.Session.DiskIoctl: what the C code writes through `buff` is returned as the `stored` value rather than written into caller memory.
- SdDriver.Session.ReadSingleBlock, ReadMultiBlock, ReadSectors, WriteSingleBlock, WriteMultiBlock, SendEraseHint, WriteSectors, Control, ReadSectorCount, Identify, RetryCmd, IdentifyV2, AwaitV2, ReadCcs, IdentifyV1 and PowerUp: these helpers do not state the CS line they leave. Each `send_cmd` inside them can leave the card selected or not. The entry points that call them state CS after their final `deselect`.
- SdDisk.CsdStored: for a version 1.0 CSD whose exponent is below 9, the C shift count is negative, which is undefined behaviour. The model returns `Undefined` instead of a value.
- SPI clock speed and electrical behaviour (the MISO pull-up aside) are not modelled.
- `main.c`, `periph/led.c` and `globdefs.h` are not part of this model. They are flash programming, LED wrappers and type aliases.
