# Verified models of six firmware cores

Dafny models of the stateful parts of this AVR firmware repository, each proved against the
simple meaning it has for its users. Every file is one module; `dafny verify dfyconfig.toml`
checks them all.

* **Block device over two dataflash chips** (`DataflashChip`, `DataflashBus`, `DataflashCommands`,
  `DataflashManager`, `DataflashReader`, `DataflashManagerRam`). A chip is modelled at its SPI pins:
  opcodes, three address bytes, data, and internal transfers that the rising edge of chip select
  starts and that take any finite number of SPI transfers; a chip may also be declared so slow that
  its transfers outlast whatever is sent to the other one (`LongerTransferOutlasts`). What a chip will
  hold once it is done, its settled view, is what the manager's invariant speaks of. The manager is
  shown to make two interleaved chips with two buffers each look like one flat array of bytes. When
  packets arrive, and whether the host fails or resets, is open; an endpoint counts the failures.
* **Web server file sender** (`HttpServer`). The callback as a class and as a step function, and the
  events uIP may deliver (uip.c lines 689-697, 733-785 and 1670-1740): one segment outstanding at
  most, acknowledgement or retransmission only of an outstanding segment, polls only without one.
* **Interrupt-driven UART** (`Uart`). The main program is split into its single accesses to volatile
  variables and an interrupt may run between any two.
* **Bootloaders** (`AvrFlash`, `DfuProgramming`, `DfuBootloader`, `CdcErase`). Flash with its temporary
  page buffer, the DFU 1.1 requests (section 6 and appendix A of that specification) with the vendor
  commands, and the chip erase loop of the CDC bootloader.
* **Bit and byte queues and their programs** (`BitBuffer`, `Magstripe`, `RingBuffer`, `SerialBridge`).
* **DHCP client** (`DhcpOptions`, `DhcpClient`). The option list as bytes walked by its length bytes
  (section 2 and section 3.2 of RFC 2132) and the client as seen from the network (section 4.4 of
  RFC 2131).
* **Scheduler delays** (`Scheduler`) and what several models share (`Bytes`, `Circular`).

Code that updates state is a class or a loop here too; its contracts tie the new state to a function
of the old one, and the results about whole runs are lemmas about these functions.

Where the code does not do what it is meant to do on all inputs, the model keeps the code and the
exact condition is proved: `DataflashManagerRam.WriteBlocksRam` with `RamWriteLosesData` (a RAM write
that reaches the buffer switch loses a page), `HttpServer.ClosesExactlyWhenLastSegmentIsShort` (a file
that ends in a full segment is never closed by the server), `DfuProgramming.DownloadRightExactly` (a
download that starts inside a page and leaves it misplaces words), `CdcErase.ErasesAllExactly` (the
erase loop steps over pages, while the DFU one, `DfuProgramming.EraseClearsAll`, does not),
`BitBuffer.GivesBackExactlyWhenClear` (initialising does not clear the bytes),
`DhcpOptions.ReadAsMeantExactlyWithoutPads` (pads are misread),
`DhcpOptions.SizeCountedExactly` (sizes are returned in one byte) and
`Scheduler.MaximumDelayIsExact`. The documentation of TASK_MAX_DELAY (Scheduler.h lines 129-131) calls it
the longest delay that the counter type can hold; what is proved is that it is the longest one that can
always end.

## Model

| member | source | states |
|---|---|---|
| `DataflashManager.WriteBlocks` | poc/MassStorage/Lib/DataflashManager.c:50-174 | Main result. For every block address and count inside the media, the chips idle or busy with something the write can bear: the write completes unless the host fails or resets the interface on the way, and stops at the first such failure. A completed write changes the flat media exactly on its byte range, to the bytes received, whatever the two chips were made to do in the background; a write cut short has taken a prefix of the data and leaves whole pages only: those before the page being assembled are new, all others as they were. No chip is ever used in a way it does not allow. |
| `DataflashManager.RunJob` | poc/MassStorage/Lib/DataflashManager.c:50-174 | The same for a write given as a start byte and data: completed, or stopped by the host at a page with every earlier page new and every other one untouched. |
| `DataflashManager.ReceiveBlocks` | poc/MassStorage/Lib/DataflashManager.c:75-160 | The loop over blocks: the invariant of the double-buffered write holds at every point where the host can stop it, and at the end, which is reached unless the host does, the last page is full up to the end of the data. |
| `DataflashManager.WriteBlock` | poc/MassStorage/Lib/DataflashManager.c:77-156 | One block of 32 chunks: advances by 512 bytes, and falls short of that only if the host has failed or reset the interface once, and keeps the invariant either way. |
| `DataflashManager.NextChunk` | poc/MassStorage/Lib/DataflashManager.c:93-151 | One chunk, over a page boundary if need be: advances by 16 bytes and keeps the invariant. |
| `DataflashManager.NextPage` | poc/MassStorage/Lib/DataflashManager.c:94-110 | Programming a full page adds exactly that page to the finished ones and leaves the next page's chip selected with the buffer it needs free. |
| `DataflashManager.OpenPage` | poc/MassStorage/Lib/DataflashManager.c:112-126 | A new page's buffer starts out with the page's old contents whenever the data ends in the page; the 16-bit product in the test costs at most an extra preload. |
| `DataflashManager.TailIsPreloaded` | poc/MassStorage/Lib/DataflashManager.c:113-114 | A page that the data does not fill passes the 16-bit test. |
| `DataflashManager.OnePageLeavesReady` | poc/MassStorage/Lib/DataflashManager.c:162-173 | After a completed write inside one page both chips are idle if they were before, so it can be read back at once. |
| `DataflashManager.MorePagesMayLeaveBusy` | poc/MassStorage/Lib/DataflashManager.c:162-173 | After a completed write of two or more pages a chip slow enough is still programming the last page but one: nothing in the write waits for it. |
| `DataflashManager.FollowsAtOnce` | poc/MassStorage/Lib/DataflashManager.c:57-68 | Another write may begin right after a completed one, however slow the chips are, exactly when the chip left busy neither holds its first page nor is to fill, without a preload, the buffer it is programming from. |
| `DataflashManager.GoingOnMustWait` | poc/MassStorage/Lib/DataflashManager.c:57-173 | A write that continues at a page boundary where a write of two or more pages ended may not follow it at once: its first page is on the chip that may still be programming. |
| `DataflashManager.TooSoon` | poc/MassStorage/Lib/DataflashManager.c:57-68 | Otherwise the write preloads on a busy chip or fills a buffer in use, which the device does not allow. |
| `DataflashManager.BuffersAlternate` | poc/MassStorage/Lib/DataflashManager.c:105-107 | Pages two apart, that is, consecutive pages of one chip, use different buffers, for even and odd first pages. |
| `DataflashManager.FillChunk` | poc/MassStorage/Lib/DataflashManager.c:129-145 | Sixteen bytes from the endpoint are spliced into the buffer being filled and nothing else changes, although the other buffer may still be being programmed. |
| `DataflashManager.OpenFirstPage` | poc/MassStorage/Lib/DataflashManager.c:57-69 | Whatever the other chip is doing, the first page's buffer holds the page's old contents before the first byte of data and is filled from the right offset. |
| `DataflashManager.CommitLast` | poc/MassStorage/Lib/DataflashManager.c:162-166 | The last page joins the finished ones and its chip has finished with it. |
| `DataflashManager.AllCommitted` | poc/MassStorage/Lib/DataflashManager.c:52-53 | Pages programmed one by one, head and tail preserved, add up to a splice of the flat media. |
| `DataflashManager.CommitOne` | poc/MassStorage/Lib/DataflashManager.c:96-103 | Programming the new contents of one page extends the finished pages by one, on whichever chip it lives. |
| `DataflashManager.FilledIsTarget` | poc/MassStorage/Lib/DataflashManager.c:112-122 | A buffer that is full, or filled to the end of the data over old contents, is the page the write must produce. |
| `DataflashManager.PageEndsBetweenBlocks` | poc/MassStorage/Lib/DataflashManager.c:94-114 | Pages only end where blocks end, so the block counter tested for the preload is exact. |
| `DataflashReader.ReadBlocks` | poc/MassStorage/Lib/DataflashManager.c:184-281 | A read sends exactly the flat slice asked for unless the host fails or resets the interface, and then a prefix of it up to the first failure, and leaves both chips as they were. |
| `DataflashReader.SendBlocks` | poc/MassStorage/Lib/DataflashManager.c:205-273 | The read loop: what was sent is the flat slice up to the position reached, at every point where it can stop. |
| `DataflashReader.MediaAt` | poc/MassStorage/Lib/DataflashManager.c:186-188 | Byte `offset` of page `p` on its chip is byte `p * 1024 + offset` of the flat media. |
| `DataflashReader.WriteThenRead` | poc/MassStorage/Lib/DataflashManager.c:50-281 | If the host does not fail or reset the interface, the write and the read back complete, and the read returns the bytes written: at once if the write is inside one page, otherwise after a pause in which the chips can finish. |
| `DataflashManagerRam.WriteBlocksRam` | poc/MassStorage/Lib/DataflashManager.c:292-380 | A write from RAM is right as long as it ends before the page where the buffers switch, that is, its last page is at most the first page with its lowest bit set; otherwise that page holds its old contents or what buffer 2 happened to hold. Pages outside the range never change. |
| `DataflashManagerRam.RamWriteLosesData` | poc/MassStorage/Lib/DataflashManager.c:339-354 | For every range that reaches the switch page there is data that the page does not end up with, whatever the media and the buffers held: the bound above is exact. |
| `DataflashManagerRam.AdvanceRam` | poc/MassStorage/Lib/DataflashManager.c:321-337 | A finished page before the switch joins the right ones; from the switch on, the switch page is bound to hold the stale contents; at any time only pages of the range up to this one have changed or will. |
| `DataflashManagerRam.OpenRam` | poc/MassStorage/Lib/DataflashManager.c:339-354 | Starting a page after an optional preload of the selected buffer, always filling buffer 1. |
| `DataflashManagerRam.StrayByte` | poc/MassStorage/Lib/DataflashManager.c:353-359 | A byte written to buffer 1 while the chip programs from it disturbs only the page being programmed from that buffer. |
| `DataflashManagerRam.FinishRam` | poc/MassStorage/Lib/DataflashManager.c:372-379 | The last page of a RAM write: a correct splice before the switch, the stale switch page after it, and no change outside the range. |
| `DataflashManagerRam.StraightUsesFirst` | poc/MassStorage/Lib/DataflashManager.c:332-334 | Before the switch page only buffer 1 is used, and the switch happens at the first even page after the start. |
| `DataflashManagerRam.ReadBlocksRam` | poc/MassStorage/Lib/DataflashManager.c:391-451 | A read into RAM fills the beginning of the buffer with the flat slice and leaves the rest of it, and both chips, alone. |
| `DataflashBus.AddressRoundTrip` | poc/MassStorage/Board/Dataflash.h:113-120 | The chip recovers the page within the chip and the byte offset from the three address bytes. |
| `DataflashBus.MiddleByte` | poc/MassStorage/Board/Dataflash.h:118 | The middle address byte, an OR of shifted values cut to a byte, holds five page bits and three offset bits that do not overlap. |
| `DataflashBus.PagesCorrespond` | poc/MassStorage/Board/Dataflash.h:94-120 | Two pages of the media are the same exactly if the same chip is selected for them and it recovers the same page from the address bytes, and every page of either chip is reached. |
| `DataflashBus.Dataflash.SelectChipFromPage` | poc/MassStorage/Board/Dataflash.h:94-105 | Deselects, carrying out the command under way, and selects the chip the page number asks for, none if it is out of range. |
| `DataflashBus.Dataflash.SendAddressBytes` | poc/MassStorage/Board/Dataflash.h:113-120 | Sent after an opcode, the bytes make the selected chip address the page and offset meant; the other chip is undisturbed. |
| `DataflashBus.Dataflash.SelectChip` | tools/lufa20100219/LUFA/Drivers/Board/Dataflash.h:114-115 | Changing the select lines ends the command of a chip that loses selection. |
| `DataflashBus.Dataflash.DeselectChip` | tools/lufa20100219/LUFA/Drivers/Board/Dataflash.h:117 | Both chips have carried out what they were told and no line is active. |
| `DataflashBus.Dataflash.ToggleSelectedChipCS` | tools/lufa20100219/LUFA/Drivers/Board/Dataflash.h:187-193 | Ends the selected chip's command and leaves it selected, ready for a new one. |
| `DataflashBus.Dataflash.WaitWhileBusy` | tools/lufa20100219/LUFA/Drivers/Board/Dataflash.h:198-204 | Terminates for any finite duration of the background operation, and then the selected chip is idle with nothing lost. |
| `DataflashBus.Dataflash.PollUntilReady` | tools/lufa20100219/LUFA/Drivers/Board/Dataflash.h:202 | The status polling loop ends with the chip idle; each poll brings the operation nearer its end. |
| `DataflashChip.ClockSettles` | poc/MassStorage/Board/AT45DB642D.h:62-81 | A transfer that does not clash with the background operation has the same effect before and after it finishes: the law of double buffering. |
| `DataflashChip.ReleaseSettles` | poc/MassStorage/Board/AT45DB642D.h:66-81 | Ending a command on an idle chip, seen once it has finished, is carrying it out at once. |
| `DataflashChip.LongerTransferOutlasts` | poc/MassStorage/Board/AT45DB642D.h:80-81 | However many transfers follow, an internal transfer that takes longer is still under way. |
| `DataflashChip.TickKeepsSettled` | poc/MassStorage/Board/AT45DB642D.h:55-81 | Time passing does not change what a chip will hold when it is done, and brings it nearer. |
| `DataflashCommands.CommitAndAdvance` | poc/MassStorage/Lib/DataflashManager.c:96-110 | Programs the page from the selected buffer in the background, switches buffers after the second chip and selects the next page's chip. |
| `DataflashCommands.Preload` | poc/MassStorage/Lib/DataflashManager.c:115-121 | The buffer holds the page afterwards and the chip is idle. |
| `DataflashCommands.FillByte` | poc/MassStorage/Lib/DataflashManager.c:130 | One data byte lands at the buffer's offset; memory, the other buffer and the other chip are as before. |
| `HttpServer.ResponseIsPrefix` | tools/lufa20100219/Projects/Webserver/Lib/HTTPServerApp.c:97-287 | Main result. In every run the environment allows, with any number of retransmissions: acknowledged bytes plus the outstanding segment are a prefix of header and file, the acknowledged position counts the acknowledged file bytes, and the connection is closed only when the whole response is acknowledged. |
| `HttpServer.ServesInSegments` | tools/lufa20100219/Projects/Webserver/Lib/HTTPServerApp.c:97-287 | Main result. In every run the bytes on the wire and the fate of the connection are a function of the events alone, stated in segments: a GET is answered at the first chance to send, each acknowledgement replaces the outstanding segment by the next one, a retransmission or poll by none, the acknowledgement of the last short segment closes, and a request that is not a GET aborts. |
| `HttpServer.StepFollows` | tools/lufa20100219/Projects/Webserver/Lib/HTTPServerApp.c:97-157 | Each allowed event takes the connection to the stage that the segments call for. |
| `HttpServer.AbortsExactlyWhenNotGet` | tools/lufa20100219/Projects/Webserver/Lib/HTTPServerApp.c:97-208 | A connection ends early exactly when it is closed from outside or a request that is not a GET arrives. |
| `HttpServer.HeaderIsSent` | tools/lufa20100219/Projects/Webserver/Lib/HTTPServerApp.c:212-265 | Once the request was read, a poll or more data from the client, whichever comes first, makes the header or the not-found text go out, in every run. |
| `HttpServer.OnlyGetIsAnswered` | tools/lufa20100219/Projects/Webserver/Lib/HTTPServerApp.c:162-208 | A connection without a GET never gets a byte. |
| `HttpServer.DataSegment` | tools/lufa20100219/Projects/Webserver/Lib/HTTPServerApp.c:270-287 | In the data phase the outstanding bytes are the segment of the file whose number is the count of acknowledgements. |
| `HttpServer.ClosesExactlyWhenLastSegmentIsShort` | tools/lufa20100219/Projects/Webserver/Lib/HTTPServerApp.c:284-286 | The server closes by itself in some run exactly when the file length is not a multiple of the segment size (or there is no file). |
| `HttpServer.AcksUntilClose` | tools/lufa20100219/Projects/Webserver/Lib/HTTPServerApp.c:122-129 | It closes at the acknowledgement number `len / mss + 2` (header, full segments, short segment), neither earlier nor later. |
| `HttpServer.RetransmissionRepeats` | tools/lufa20100219/Projects/Webserver/Lib/HTTPServerApp.c:131-135 | What a retransmission sends is exactly the outstanding segment. |
| `HttpServer.StepKeepsInv` | tools/lufa20100219/Projects/Webserver/Lib/HTTPServerApp.c:97-157 | Every event the environment allows keeps the invariant that ties state, file position, acknowledged bytes and outstanding segment together. |
| `HttpServer.RunKeepsInv` | tools/lufa20100219/Projects/Webserver/Lib/HTTPServerApp.c:97-157 | So does every run. |
| `HttpServer.FullSegmentAcked` | tools/lufa20100219/Projects/Webserver/Lib/HTTPServerApp.c:270-287 | The acknowledgement of a full segment sends the next piece and moves the position by one segment. |
| `HttpServer.LastSegmentAcked` | tools/lufa20100219/Projects/Webserver/Lib/HTTPServerApp.c:284-286 | The acknowledgement of a short segment closes the connection with the whole response delivered. |
| `HttpServer.SamePieceAgain` | tools/lufa20100219/Projects/Webserver/Lib/HTTPServerApp.c:131-135 | A retransmission reads the outstanding piece again; a poll after the last full piece reads nothing. |
| `HttpServer.AcknowledgeAll` | tools/lufa20100219/Projects/Webserver/Lib/HTTPServerApp.c:270-287 | From any point of the data phase there is a run that delivers the rest of a file that ends in a short segment. |
| `HttpServer.Opening` | tools/lufa20100219/Projects/Webserver/Lib/HTTPServerApp.c:162-265 | A connection, a GET request, a poll and one acknowledgement reach the data phase, or close a connection with the not-found answer. |
| `HttpServer.HttpServerApp.Callback` | tools/lufa20100219/Projects/Webserver/Lib/HTTPServerApp.c:97-157 | The callback takes exactly the step that the lemmas about sessions speak of, for every combination of event flags. |
| `HttpServer.HeaderStep` | tools/lufa20100219/Projects/Webserver/Lib/HTTPServerApp.c:212-265 | Any event in the header phase keeps the invariant: the header or the not-found answer is outstanding whole, and its acknowledgement leads to the data phase or to the close. |
| `Uart.SentInOrder` | poc/MassStorage/uart.c:58-112 | Under every interleaving of the single accesses of `uart_putchar` with the transmit interrupt, the bytes written to UDR1 are a prefix of those passed in, and the handler never takes an unpublished slot. |
| `Uart.WaitingProducerProceeds` | poc/MassStorage/uart.c:64 | A producer waiting for space finds the interrupt enabled, and one interrupt lets it go on: no lost wakeup. |
| `Uart.ProducerWaitsExactlyWhenFull` | poc/MassStorage/uart.c:62-64 | `uart_putchar` waits exactly while 39 bytes are queued. |
| `Uart.PutAppends` | poc/MassStorage/uart.c:58-70 | With room in the ring `uart_putchar` ends after its four accesses, wherever the interrupt fires in between, with its byte behind all those sent and queued before and the interrupt on if anything is queued. |
| `Uart.InterruptSendsOldest` | poc/MassStorage/uart.c:99-112 | One interrupt sends the oldest byte, or switches itself off exactly when there is none. |
| `Uart.Drains` | poc/MassStorage/uart.c:99-112 | Left alone, the interrupt sends everything there is and switches itself off. |
| `Uart.TxStepKeepsInv` | poc/MassStorage/uart.c:58-112 | Each access and each interrupt keeps the invariant that a non-empty ring has the interrupt on or about to be switched on. |
| `Uart.TxRunKeepsInv` | poc/MassStorage/uart.c:58-112 | So does every interleaving. |
| `Uart.ReceivedInOrder` | poc/MassStorage/uart.c:73-126 | Under every interleaving: `uart_getchar` returns the stored bytes in order, an arriving byte is dropped exactly when 63 are queued, and `uart_available` returns the number queued when it read the head, never more than there is on return. |
| `Uart.ReaderWaitsExactlyWhenEmpty` | poc/MassStorage/uart.c:77 | `uart_getchar` waits exactly while nothing is queued. |
| `Uart.GetReturnsOldest` | poc/MassStorage/uart.c:73-83 | With a byte queued `uart_getchar` ends after its three accesses and returns the oldest byte, wherever bytes arrive in between. |
| `Uart.AvailableCounts` | poc/MassStorage/uart.c:88-96 | `uart_available` ends with the number of bytes queued when it began, whatever arrives meanwhile. |
| `Uart.ArrivalQueues` | poc/MassStorage/uart.c:115-126 | A byte that arrives is queued behind the others, or, with 63 queued, dropped without any other change. |
| `Uart.RxStepKeepsInv` | poc/MassStorage/uart.c:73-126 | Each access and each interrupt keeps the receiver's invariant. |
| `Uart.RxRunKeepsInv` | poc/MassStorage/uart.c:73-126 | So does every interleaving. |
| `Uart.PublishAppends` | poc/MassStorage/uart.c:66-67 | Moving the head appends the byte stored behind it. |
| `Uart.AdvanceRemoves` | poc/MassStorage/uart.c:107-110 | Moving the tail removes the oldest byte, which is the one read. |
| `Uart.StoreKeepsQueue` | poc/MassStorage/uart.c:66 | Writing the free slot disturbs nothing queued. |
| `Uart.FullWhen` | poc/MassStorage/uart.c:62-64 | The test for space fails exactly when all slots but one are in use. |
| `Uart.Transmitter.Execute` | poc/MassStorage/uart.c:58-112 | The transmitter on its array and index fields does what the step relation says, for every sequence of events. |
| `Uart.Receiver.Execute` | poc/MassStorage/uart.c:73-126 | The same for the receiver. |
| `DfuProgramming.ProgramWords` | tools/lufa20100219/Bootloaders/DFU/BootloaderDFU.c:217-273 | The programming loop, from any start address, word count and flash: it does what the page-by-page function says, and on a flash prepared as the programming command prepares it memory ends up as the closed form of a download. |
| `DfuProgramming.ProgrammedIsDownloaded` | tools/lufa20100219/Bootloaders/DFU/BootloaderDFU.c:228-267 | The page-by-page function has the closed form of a download on a prepared flash. |
| `DfuProgramming.LoopDownloads` | tools/lufa20100219/Bootloaders/DFU/BootloaderDFU.c:228-267 | So it has from any state in the middle of the loop. |
| `DfuProgramming.DownloadRightExactly` | tools/lufa20100219/Bootloaders/DFU/BootloaderDFU.c:217-267 | A download puts every stream of words where it belongs exactly when the range starts on a page or stays inside one page. |
| `DfuProgramming.WrongOtherwise` | tools/lufa20100219/Bootloaders/DFU/BootloaderDFU.c:249-266 | For any other range there is a stream of which a word is misplaced: the page is committed after a page's number of words, not at a page boundary. |
| `DfuProgramming.DownloadFrame` | tools/lufa20100219/Bootloaders/DFU/BootloaderDFU.c:217-267 | Outside such a range the rest of the touched pages is blank and other pages are unchanged. |
| `DfuProgramming.DownloadThenRead` | tools/lufa20100219/Bootloaders/DFU/BootloaderDFU.c:217-371 | Reading the range back gives the words downloaded. |
| `DfuProgramming.ReadWords` | tools/lufa20100219/Bootloaders/DFU/BootloaderDFU.c:348-371 | The upload loop returns the words of the range. |
| `DfuProgramming.FillOne` | tools/lufa20100219/Bootloaders/DFU/BootloaderDFU.c:243-247 | A word taken from the endpoint lands in the slot of the temporary buffer that the closed form assigns to it. |
| `DfuProgramming.WriteOne` | tools/lufa20100219/Bootloaders/DFU/BootloaderDFU.c:250-254 | Committing a page makes exactly one more page of the download final. |
| `DfuProgramming.ErasePages` | tools/lufa20100219/Bootloaders/DFU/BootloaderDFU.c:664-672 | The erase loop for any page size, boot section start and leftover temporary buffer: exactly the pages that begin below the boot section are erased, the first one gets what the buffer held. |
| `DfuProgramming.EraseClearsAll` | tools/lufa20100219/Bootloaders/DFU/BootloaderDFU.c:664-672 | With an empty temporary buffer, for every page size and boot section start, each word of a page that begins in the application section is blank afterwards and no other word has changed. |
| `DfuProgramming.EraseApplication` | tools/lufa20100219/Bootloaders/DFU/BootloaderDFU.c:664-675 | The erase loop of the configured build, run with page erase and page write at each address and RWW enable at the end, has the closed form. |
| `DfuProgramming.EraseLeavesBlank` | tools/lufa20100219/Bootloaders/DFU/BootloaderDFU.c:664-672 | In the configured build the whole application section reads 0xFF afterwards and the boot section is untouched. |
| `DfuBootloader.SecureRun` | tools/lufa20100219/Bootloaders/DFU/BootloaderDFU.c:488-531 | Main result. Starting secure, in every sequence of requests: while the flag holds, flash and EEPROM are unchanged and the state is idle or error; the step that clears the flag leaves the whole application section blank. |
| `DfuBootloader.NothingLeaks` | tools/lufa20100219/Bootloaders/DFU/BootloaderDFU.c:309-407 | Two secure devices that differ only in their memories answer every sequence of requests alike up to and including the one that clears the flag: no memory content is uploaded. |
| `DfuBootloader.DownloadThenUpload` | tools/lufa20100219/Bootloaders/DFU/BootloaderDFU.c:149-407 | A session of program command with data, read command and upload, anywhere in a run, with first packets of any length and with status queries, a zero-length download, unknown requests and, before the read command, aborts in between: the range holds the words sent, the host gets them back, and nothing else changes but the rest of the touched pages. |
| `DfuBootloader.EepromSession` | tools/lufa20100219/Bootloaders/DFU/BootloaderDFU.c:149-407 | The same for the EEPROM: after a program command with data, a read command and an upload, anywhere in a run, the host gets the bytes it sent, the cells outside the range are as before, and so is the flash. |
| `DfuBootloader.ChipEraseUnlocks` | tools/lufa20100219/Bootloaders/DFU/BootloaderDFU.c:660-679 | A chip erase command to any device, secure or not, clears the flag and the application section and changes nothing else. |
| `DfuBootloader.SecureRefuses` | tools/lufa20100219/Bootloaders/DFU/BootloaderDFU.c:490-508 | Any command to a secure device but a chip erase or an information command puts it into the error state with status errWRITE and changes nothing else. |
| `DfuBootloader.ErrorIsReported` | tools/lufa20100219/Bootloaders/DFU/BootloaderDFU.c:408-452 | What the host reads of that error: with a status request, after clearing the status, and after an abort. |
| `DfuBootloader.InformationIsRead` | tools/lufa20100219/Bootloaders/DFU/BootloaderDFU.c:686-697 | An information command and the upload after it return the version, identification or signature byte asked for, while secure as well. |
| `DfuBootloader.BlankCheckReports` | tools/lufa20100219/Bootloaders/DFU/BootloaderDFU.c:597-620 | A blank check leaves a device with a blank application section idle; otherwise status and upload tell the host the first byte that is not blank. |
| `DfuBootloader.BlankExactly` | tools/lufa20100219/Bootloaders/DFU/BootloaderDFU.c:599-617 | The byte-wise search finds nothing exactly when all words of the application section are blank. |
| `DfuBootloader.ApplicationIsStarted` | tools/lufa20100219/Bootloaders/DFU/BootloaderDFU.c:625-658 | A start command and the empty download after it: the bootloader waits in between, then leaves for the address given, or stays for the watchdog. |
| `DfuBootloader.OtherDownloadTakesStartBack` | tools/lufa20100219/Bootloaders/DFU/BootloaderDFU.c:157-191 | A download that is not empty takes a start back: it is handled as if the device had not been asked to leave. |
| `DfuBootloader.BaseAddressIsSet` | tools/lufa20100219/Bootloaders/DFU/BootloaderDFU.c:525-529 | The command that sets the 64 KiB page sets it and nothing else. |
| `DfuBootloader.UnknownIsIgnored` | tools/lufa20100219/Bootloaders/DFU/BootloaderDFU.c:511-531 | A command that is none of these has no effect. |
| `DfuBootloader.EmptyDownloadEnds` | tools/lufa20100219/Bootloaders/DFU/BootloaderDFU.c:197-202 | An empty download ends a download of firmware and does nothing else. |
| `DfuBootloader.ParametersArrive` | tools/lufa20100219/Bootloaders/DFU/BootloaderDFU.c:178-190 | The parameters in the first packet are the ones the command gets, and those not sent keep their values. |
| `DfuBootloader.SecureStep` | tools/lufa20100219/Bootloaders/DFU/BootloaderDFU.c:149-455 | One request to a secure device. |
| `DfuBootloader.SecureStepBlind` | tools/lufa20100219/Bootloaders/DFU/BootloaderDFU.c:149-455 | One request cannot tell two secure devices with different memories apart. |
| `DfuBootloader.SecureCommand` | tools/lufa20100219/Bootloaders/DFU/BootloaderDFU.c:490-508 | While secure a command leaves the flash alone unless it is the chip erase, which clears the flag. |
| `DfuBootloader.FlagOnlyClears` | tools/lufa20100219/Bootloaders/DFU/BootloaderDFU.c:677-678 | The flag, once cleared, stays cleared. |
| `DfuBootloader.Bootloader.HandleRequest` | tools/lufa20100219/Bootloaders/DFU/BootloaderDFU.c:149-455 | The request handler takes exactly the specified transition, for every request and state. |
| `DfuBootloader.Bootloader.ProcessBootloaderCommand` | tools/lufa20100219/Bootloaders/DFU/BootloaderDFU.c:488-531 | A command changes registers and flash as the command functions say and never the EEPROM. |
| `DfuBootloader.Bootloader.LoadCommand` | tools/lufa20100219/Bootloaders/DFU/BootloaderDFU.c:178-190 | At most five parameters are taken, missing ones keep their values, and each byte taken counts against the announced size, modulo 2^16. |
| `DfuBootloader.Bootloader.BlankCheck` | tools/lufa20100219/Bootloaders/DFU/BootloaderDFU.c:597-620 | Finds the first byte of the application section that is not blank, if any. |
| `DfuBootloader.FirstNotBlank` | tools/lufa20100219/Bootloaders/DFU/BootloaderDFU.c:599-617 | The address found is not blank and everything before it is. |
| `DfuBootloader.Bootloader.WriteEeprom` | tools/lufa20100219/Bootloaders/DFU/BootloaderDFU.c:277-296 | Writes the bytes of the stream to consecutive addresses, modulo the 16-bit address. |
| `DfuBootloader.Bootloader.ReadEeprom` | tools/lufa20100219/Bootloaders/DFU/BootloaderDFU.c:378-397 | Reads consecutive EEPROM bytes. |
| `DfuBootloader.EepromRoundTrip` | tools/lufa20100219/Bootloaders/DFU/BootloaderDFU.c:277-397 | Bytes written to the EEPROM are read back, for any range no longer than the EEPROM. |
| `DfuBootloader.EepromKept` | tools/lufa20100219/Bootloaders/DFU/BootloaderDFU.c:277-296 | Cells outside the range written keep their contents. |
| `DfuBootloader.RangeLength` | tools/lufa20100219/Bootloaders/DFU/BootloaderDFU.c:212 | The 16-bit count of bytes is right for every range but the whole 64 KiB, which counts as empty. |
| `DfuBootloader.RangeContents` | tools/lufa20100219/Bootloaders/DFU/BootloaderDFU.c:217-273 | The erase of the first page and the download together. |
| `CdcErase.EraseChip` | tools/lufa20100219/Bootloaders/CDC/BootloaderCDC.c:440-448 | The loop terminates and erases exactly the application pages `p` with `p mod (P + 1) != P`, and no boot page, for any page size P and any boot section start that P divides. |
| `CdcErase.ErasesAllExactly` | tools/lufa20100219/Bootloaders/CDC/BootloaderCDC.c:440-448 | It clears every application page exactly when the boot section starts at or below P * P. |
| `CdcErase.NextAddress` | tools/lufa20100219/Bootloaders/CDC/BootloaderCDC.c:440-447 | One round advances the address by a page and a byte. |
| `CdcErase.ShippedConfigurationMissesAPage` | tools/lufa20100219/Bootloaders/CDC/BootloaderCDC.c:440-447 | With 256-byte pages and the boot section at 0x1E000, page 256 survives a chip erase. |
| `BitBuffer.BitBuffer.StoreNextBit` | tools/lufa20100219/Projects/Magstripe/Lib/CircularBitBuffer.c:53-79 | Stores by OR-ing into the bit behind the queue; in clear surroundings this appends the bit and the surroundings stay clear. |
| `BitBuffer.BitBuffer.GetNextBit` | tools/lufa20100219/Projects/Magstripe/Lib/CircularBitBuffer.c:82-113 | Returns and removes the oldest bit. |
| `BitBuffer.BitBuffer.Init` | tools/lufa20100219/Projects/Magstripe/Lib/CircularBitBuffer.c:40-50 | Empties the queue and leaves the bits alone. |
| `BitBuffer.GivesBackExactlyWhenClear` | tools/lufa20100219/Projects/Magstripe/Lib/CircularBitBuffer.c:40-113 | After initialising, in every run of stores and fetches in any order what was fetched and what is queued are what was stored, exactly when all bits of the array were clear. |
| `BitBuffer.GivenBackMerged` | tools/lufa20100219/Projects/Magstripe/Lib/CircularBitBuffer.c:40-113 | In general, in every run, they are what was stored, with the bits of the first way round the array OR-ed with what was there before. |
| `BitBuffer.SetBitComesOut` | tools/lufa20100219/Projects/Magstripe/Lib/CircularBitBuffer.c:40-113 | A bit that was set at position p comes out as the last of p + 1 fetches after as many stores of false. |
| `BitBuffer.StoreEffect` | tools/lufa20100219/Projects/Magstripe/Lib/CircularBitBuffer.c:56-57 | Storing on the packed bytes is the store on the sequence of bits. |
| `BitBuffer.FetchEffect` | tools/lufa20100219/Projects/Magstripe/Lib/CircularBitBuffer.c:85-88 | Fetching and clearing on the packed bytes is the fetch on the sequence of bits. |
| `BitBuffer.StoreBit` | tools/lufa20100219/Projects/Magstripe/Lib/CircularBitBuffer.c:56-57 | OR-ing a mask sets one bit of the packed buffer and no other. |
| `BitBuffer.DropBit` | tools/lufa20100219/Projects/Magstripe/Lib/CircularBitBuffer.c:88 | AND-ing the complement clears one bit and no other. |
| `BitBuffer.PutAppends` | tools/lufa20100219/Projects/Magstripe/Lib/CircularBitBuffer.c:53-79 | A store appends the bit OR-ed with what was behind the queue. |
| `BitBuffer.PutTakesOutside` | tools/lufa20100219/Projects/Magstripe/Lib/CircularBitBuffer.c:53-79 | A store takes the first of the bits outside the queue and leaves the others. |
| `BitBuffer.TakeGivesOutside` | tools/lufa20100219/Projects/Magstripe/Lib/CircularBitBuffer.c:82-113 | A fetch adds a clear bit behind the bits outside the queue. |
| `BitBuffer.PutKeepsClear` | tools/lufa20100219/Projects/Magstripe/Lib/CircularBitBuffer.c:53-79 | In clear surroundings that bit was clear, and the surroundings stay clear. |
| `BitBuffer.TakeDrops` | tools/lufa20100219/Projects/Magstripe/Lib/CircularBitBuffer.c:82-113 | A fetch returns the oldest bit, takes it out of the queue and changes no other. |
| `BitBuffer.TakeKeepsClear` | tools/lufa20100219/Projects/Magstripe/Lib/CircularBitBuffer.c:88 | Clearing the fetched bit keeps clear surroundings clear. |
| `Magstripe.Reader.SwipeAndType` | tools/lufa20100219/Projects/Magstripe/Magstripe.c:108-201 | Main result. For every stream of samples: the reports that follow, without the releases, type for each of the three tracks what was left in its buffer, the bits at its rising clock edges and ENTER, and then nothing; no two reports in a row press a key. |
| `Magstripe.ReportsTypeWhatIsDue` | tools/lufa20100219/Projects/Magstripe/Magstripe.c:172-201 | From any state, any number of reports types exactly what is due, one key every other report. |
| `Magstripe.NoAdjacentPresses` | tools/lufa20100219/Projects/Magstripe/Magstripe.c:179-186 | No two reports in a row press a key. |
| `Magstripe.ReportTakesNext` | tools/lufa20100219/Projects/Magstripe/Magstripe.c:182-197 | One report types the next key that is due or none. |
| `Magstripe.TracksDue` | tools/lufa20100219/Projects/Magstripe/Magstripe.c:187-197 | What is due after a card was read. |
| `Magstripe.Reader.ReadMagstripeData` | tools/lufa20100219/Projects/Magstripe/Magstripe.c:108-140 | Each track's buffer gains exactly the data level at each rising clock edge, the previous sample being 0 at first. |
| `Magstripe.RisingIsLowThenHigh` | tools/lufa20100219/Projects/Magstripe/Magstripe.c:127-131 | The test on the XOR of two samples is true exactly when the clock was low and is high. |
| `Magstripe.TrackBits` | tools/lufa20100219/Projects/Magstripe/Magstripe.c:123-132 | The bits of a track, from the levels alone: one for each time the clock went from low to high, and it is the data level of that sample. |
| `Magstripe.Reader.CreateHIDReport` | tools/lufa20100219/Projects/Magstripe/Magstripe.c:172-201 | One report, as the step function of the keyboard says. |
| `RingBuffer.HoldsLastStored` | tools/lufa20100219/Projects/USBtoSerial/Lib/RingBuff.c:43-99 | After any history of stores and of gets from a non-empty buffer: it holds exactly the last bytes stored, fetched bytes came out in order, and stores = gets + drops + held. |
| `RingBuffer.StepAccounts` | tools/lufa20100219/Projects/USBtoSerial/Lib/RingBuff.c:43-99 | One operation keeps the account. |
| `RingBuffer.AccountHolds` | tools/lufa20100219/Projects/USBtoSerial/Lib/RingBuff.c:43-99 | So does every history. |
| `RingBuffer.NothingDropped` | tools/lufa20100219/Projects/USBtoSerial/Lib/RingBuff.c:48-54 | Without drops, fetched and held together are what was stored. |
| `RingBuffer.HoldsExactly` | tools/lufa20100219/Projects/USBtoSerial/Lib/RingBuff.c:43-99 | What a buffer holds after any history, from the operations alone: the last bytes of all those stored, as many as are left when only a store into a full buffer drops one. |
| `RingBuffer.DropsExactlyWhenFull` | tools/lufa20100219/Projects/USBtoSerial/Lib/RingBuff.c:48-54 | A byte is dropped exactly when one is stored into a full buffer. |
| `RingBuffer.RingBuffer.StoreElement` | tools/lufa20100219/Projects/USBtoSerial/Lib/RingBuff.c:43-74 | Appends a byte, dropping the oldest one from a full buffer. |
| `RingBuffer.RingBuffer.GetElement` | tools/lufa20100219/Projects/USBtoSerial/Lib/RingBuff.c:76-99 | Removes and returns the oldest byte. |
| `Circular.WindowAppends` | tools/lufa20100219/Projects/USBtoSerial/Lib/RingBuff.c:68-72 | The circular window grows by the element stored. |
| `Circular.WindowDropsFirst` | tools/lufa20100219/Projects/USBtoSerial/Lib/RingBuff.c:89-95 | The circular window loses its oldest element. |
| `SerialBridge.BridgeRuns` | tools/lufa20100219/Projects/USBtoSerial/USBtoSerial.c:81-157 | Under every interleaving of the main loop with the receive interrupt: host to serial line loses nothing and keeps the order; serial line to host keeps the order and accounts for every byte; no buffer is read while empty. |
| `SerialBridge.HostGetsWhatArrived` | tools/lufa20100219/Projects/USBtoSerial/USBtoSerial.c:151-157 | Under every interleaving, what was fetched for the host, dropped or is queued for it is exactly what the interrupt delivered while the device was configured. |
| `SerialBridge.RoundServesBoth` | tools/lufa20100219/Projects/USBtoSerial/USBtoSerial.c:81-101 | One round of the main loop, with interrupts anywhere: it takes host bytes while there are any and there is room, then sends one byte to the host if there was one and one to the serial line if there is one by then. |
| `SerialBridge.HostByteIsQueued` | tools/lufa20100219/Projects/USBtoSerial/USBtoSerial.c:84-89 | A byte taken from the host goes behind all those taken before. |
| `SerialBridge.LoopMovesOn` | tools/lufa20100219/Projects/USBtoSerial/USBtoSerial.c:81-101 | Every step of the loop brings the end of the round nearer, and no interrupt delays it. |
| `SerialBridge.StepKeepsInv` | tools/lufa20100219/Projects/USBtoSerial/USBtoSerial.c:81-157 | One step of the loop or one interrupt keeps the bridge's invariant. |
| `SerialBridge.RunKeepsInv` | tools/lufa20100219/Projects/USBtoSerial/USBtoSerial.c:81-157 | So does every interleaving. |
| `SerialBridge.SerialBridge.Execute` | tools/lufa20100219/Projects/USBtoSerial/USBtoSerial.c:81-157 | The program on two ring buffer objects does what the step relation says. |
| `DhcpOptions.SetThenGet` | tools/lufa20100219/Projects/Webserver/Lib/DHCPClientApp.c:218-263 | On any list that ends inside the buffer: an option not present before is read back as stored, every other lookup is unchanged, whatever the data bytes are. |
| `DhcpOptions.SetOption` | tools/lufa20100219/Projects/Webserver/Lib/DHCPClientApp.c:218-232 | Terminates, overwrites the end marker with the option and a new end marker, leaves all other bytes alone and returns the size in one byte. |
| `DhcpOptions.GetOption` | tools/lufa20100219/Projects/Webserver/Lib/DHCPClientApp.c:242-263 | Terminates and copies the data of the first option with the code, or reports that there is none and copies nothing. |
| `DhcpOptions.OptionIsAppended` | tools/lufa20100219/Projects/Webserver/Lib/DHCPClientApp.c:224-228 | After the write the list walks to the old options followed by the new one, and the end marker moved by the option's size. |
| `DhcpOptions.SizeCountedExactly` | tools/lufa20100219/Projects/Webserver/Lib/DHCPClientApp.c:231 | The returned byte is how far the end marker moved exactly when the data has fewer than 254 bytes. |
| `DhcpOptions.EncodingWalksBack` | tools/lufa20100219/Projects/Webserver/Lib/DHCPClientApp.c:221-222 | Any encoded list of options, data bytes 255 included, is walked back to the options. |
| `DhcpOptions.WalkDecodes` | tools/lufa20100219/Projects/Webserver/Lib/DHCPClientApp.c:221-222 | What a walk passes over is the encoding of the options it meets. |
| `DhcpOptions.FindAppended` | tools/lufa20100219/Projects/Webserver/Lib/DHCPClientApp.c:248-255 | Lookups in a list with one more option at its end. |
| `DhcpOptions.ReadAsMeantExactlyWithoutPads` | tools/lufa20100219/Projects/Webserver/Lib/DHCPClientApp.c:221-258 | On every list that ends when pads are skipped as the RFC says, the code meets the same options exactly when there is no pad: it takes the byte after a pad for a length. |
| `DhcpOptions.PadIsMisread` | tools/lufa20100219/Projects/Webserver/Lib/DHCPClientApp.c:258 | A list with one pad and a message type that the code does not walk to its end. |
| `DhcpClient.LeaseIsBacked` | tools/lufa20100219/Projects/Webserver/Lib/DHCPClientApp.c:68-168 | Main result. In every run from the first discovery on, the host has an address only when one is leased, and then the traffic shows, after the last discovery, an offer of this address, a request for it to the offering server, and the agreement, in this order; netmask and gateway are the offer's. Messages that are not for the client or not waited for may hold anything behind their fixed header. |
| `DhcpClient.LeaseIsObtained` | tools/lufa20100219/Projects/Webserver/Lib/DHCPClientApp.c:68-168 | The other direction: from a discovery on, an offer and an agreement lead in four callbacks to a lease of the address offered, with the discovery and the request sent on the way. |
| `DhcpClient.RetriesExactlyWhenExpired` | tools/lufa20100219/Projects/Webserver/Lib/DHCPClientApp.c:99-107 | In both states that wait, a callback without a message gives up exactly when the timer has expired, and the next one sends a new discovery. |
| `DhcpClient.OthersArePassedOver` | tools/lufa20100219/Projects/Webserver/Lib/DHCPClientApp.c:109-120 | A message that is not the answer waited for changes nothing, even with the timer expired. |
| `DhcpClient.LeaseStays` | tools/lufa20100219/Projects/Webserver/Lib/DHCPClientApp.c:68-168 | Once leased, nothing changes any more and nothing is sent. |
| `DhcpClient.DiscoveryAsks` | tools/lufa20100219/Projects/Webserver/Lib/DHCPClientApp.c:179-206 | What a receiver reads in the fixed header of a discovery, byte by byte: operation, hardware type and address, transaction, broadcast flag, zero addresses, cookie, and zeros elsewhere. |
| `DhcpClient.RequestAsks` | tools/lufa20100219/Projects/Webserver/Lib/DHCPClientApp.c:179-206 | The same for a request, with the host, offered and server addresses in their fields. |
| `DhcpClient.StepKeepsInv` | tools/lufa20100219/Projects/Webserver/Lib/DHCPClientApp.c:68-168 | One callback keeps the invariant, with any buffer contents, new data or not, timer expired or not. |
| `DhcpClient.RunKeepsInv` | tools/lufa20100219/Projects/Webserver/Lib/DHCPClientApp.c:68-168 | So does every run. |
| `DhcpClient.TakenFields` | tools/lufa20100219/Projects/Webserver/Lib/DHCPClientApp.c:113-116 | After an offer was copied the record holds its address, netmask, first router and server; a second router is overwritten by the server. |
| `DhcpClient.CopiesStayInside` | tools/lufa20100219/Projects/Webserver/Lib/DHCPClientApp.c:113-116 | The four copies leave what lies behind the record alone, whatever it is, exactly when the netmask has at most twelve bytes, the routers are at most two and the server has at most four bytes. |
| `DhcpClient.MessageReadsBack` | tools/lufa20100219/Projects/Webserver/Lib/DHCPClientApp.c:179-232 | The option list of a message the client builds reads back as the options put in it, and the message ends with the end marker: the accumulated size is header plus the offset past it. |
| `DhcpClient.RequestReadsBack` | tools/lufa20100219/Projects/Webserver/Lib/DHCPClientApp.c:123-136 | A receiver reads in the request its type, the requested address and the server. |
| `DhcpClient.DiscoveryReadsBack` | tools/lufa20100219/Projects/Webserver/Lib/DHCPClientApp.c:76-90 | A receiver reads a discovery as one, with the list of options asked for. |
| `DhcpClient.DhcpClient.Callback` | tools/lufa20100219/Projects/Webserver/Lib/DHCPClientApp.c:68-168 | The callback takes exactly the specified step; what it sends stands at the beginning of the buffer, its size is the one passed to the stack, and the bytes behind it are untouched. |
| `DhcpClient.DhcpClient.FillHeader` | tools/lufa20100219/Projects/Webserver/Lib/DHCPClientApp.c:179-206 | Writes the whole fixed header field by field, a message type option and the end marker, and returns the size of both. |
| `DhcpClient.DhcpClient.AddOption` | tools/lufa20100219/Projects/Webserver/Lib/DHCPClientApp.c:128-133 | An option added to a message, with the size brought up to date, gives the message with that option as well. |
| `DhcpClient.DhcpClient.TakeOffer` | tools/lufa20100219/Projects/Webserver/Lib/DHCPClientApp.c:113-116 | The four copies of an offer into the record. |
| `Scheduler.DelaysKept` | tools/lufa20100219/LUFA/Scheduler/Scheduler.c:36-66 | With at least one poll in every tick, for ever, and a delay no longer than TASK_MAX_DELAY: successive answers yes are the delay or one tick more apart, one more exactly when the counter wraps in between, and none is overdue. |
| `Scheduler.YesExactlyWhenDue` | tools/lufa20100219/LUFA/Scheduler/Scheduler.c:48-63 | The answer turns to yes exactly at the delay's end, one tick late across a wrap. |
| `Scheduler.MaximumDelayIsExact` | tools/lufa20100219/LUFA/Scheduler/Scheduler.h:129-132 | A delay can end whatever tick it began at exactly when it is no longer than TASK_MAX_DELAY. |
| `Scheduler.FiringsSpaced` | tools/lufa20100219/LUFA/Scheduler/Scheduler.c:36-66 | The answers yes of any run are spaced as computed. |
| `Scheduler.Scheduler.HasDelayElapsed` | tools/lufa20100219/LUFA/Scheduler/Scheduler.c:36-66 | The answer, and the caller's counter afterwards. |

## Left out

- DataflashManager.WriteBlocks: addresses beyond the media, and on entry chips busy with what the write cannot bear (`Bearable`), are excluded; the source leaves both to its callers. After a completed write the chip that does not hold the last page may still be programming (`OnePageLeavesReady`, `MorePagesMayLeaveBusy`), and `FollowsAtOnce` says when another write need not wait for it; after a write cut short both chips may be busy, and one of them still selected.
- DataflashManager.OutEndpoint: packets are multiples of 16 bytes, as the chunk loop needs; when they arrive, fail or are reset is left open.
- DataflashManager.FillChunk: the sixteen transfers written out one by one in the source are one loop here; `DataflashManagerRam.FillChunkRam` follows the loop of the source.
- DataflashManagerRam.WriteBlocksRam: once the switch page is reached, the contract speaks of the switch page and of pages outside the range; what other pages of the range hold then depends on how long the chips take to program, because buffer 1 is refilled while they do.
- DataflashManagerRam.AdvanceRam: tracks the switch page only, for the same reason.
- DataflashManagerRam.FinishRam: describes the switch page only, for the same reason.
- DataflashReader.WriteThenRead: the pause between the two calls is the caller's; the source code has none.
- DataflashChip.Chip: pages have the 1024 bytes the board's header declares, not the device's 1056; status bits other than the ready bit, power-down, compare, continuous read and erase commands are not modelled, nor is loss of power.
- DataflashManager_ResetDataflashProtections and DataflashManager_CheckDataflashOperation: straight-line command sequences.
- HttpServer.Site: request parsing, file names and MIME types are taken as given, as are a fixed segment size, a header that fits a segment, and a file shorter than 4 GiB. That `f_read` is short only at the end of the file and that an empty `uip_send` sends nothing are assumptions; no request data arrives once the response has begun.
- HttpServer.AcksUntilClose: counts acknowledgements, not time; how often uIP retransmits is left open.
- Uart.TxStep: an interrupt handler is one atomic step, as it is on this processor; `uart_init` and baud rates are not modelled.
- AvrFlash.Flash: bit 0 of an address is ignored and address bits above the memory are not decoded; programming and erasing take no time.
- DfuBootloader.Request: the filler bytes before and after the firmware are not modelled, so downloads are about the words read after them; a detach during a transfer, the watchdog and stalled requests are not modelled either. A request with a data stage brings a packet that is not empty.
- DfuBootloader.InfoByte: indices beyond the information tables read RAM around them, which is an arbitrary parameter of the model.
- DfuBootloader.DownloadThenUpload: the session starts with an empty temporary page buffer, and the range lies in the flash and is not the whole 64 KiB, which the 16-bit count takes for empty (`RangeLength`).
- DfuBootloader.EepromSession: a range no longer than the EEPROM; a longer one overwrites its own beginning.
- DfuBootloader.InformationIsRead: the command is given in the idle state. In the error state an upload after a signature command returns the start address instead, as the handler looks at the last parameters only.
- DfuProgramming.ErasePages: a page size is an even number of bytes, and addresses are not cut off at the memory's end.
- CdcErase.EraseChip: pages are values in a sequence, written whole; the temporary page buffer is empty. The other commands of the CDC bootloader, among them its block reads and writes, are not modelled.
- Magstripe.Reader.ReadMagstripeData: each track's buffer has room for its edges; the source does not check this either. The loop over the three tracks is written out. The keyboard report's other bytes and the host's polling are not modelled.
- BitBuffer.BitBuffer.GetNextBit: fetching from an empty buffer and storing into a full one are excluded, as the source demands of its callers.
- SerialBridge.Step: a byte read from the host and its store into the ring are one step; LED, line encoding and USB events are left out.
- DhcpOptions.GetOption: the destination has room for the data, as the source takes for granted; a list that does not end inside the buffer is excluded.
- DhcpClient.Manageable: an answer the client waits for has options that end inside the buffer and a message type of one byte, and the options of an offer fit the record (`CopiesStayInside`); what other answers do to memory is not modelled. The timer is reduced to whether it has expired.
- Scheduler.DelaysKept: says nothing of callers that skip a tick; `Scheduler_SetTaskMode`, `Scheduler_SetGroupTaskMode` and the endless task loop are left out.
- The copies of these algorithms elsewhere in the repository (the proof of concept's second UART driver, other dataflash managers and ring buffers), USB, uIP, FatFs, TWI, SPI and ADC drivers, SCSI commands, real-time clock, temperature and LED code: flat dispatch, library code or the same algorithm again.
