# xlink in Dafny

xlink moves bytes between a PC and a Commodore 64 or 128 over an eight-bit port with a toggle
handshake, and puts a small relocatable server on the remote machine. This project models the parts
of it that carry the transfers and proves what they promise, for every input, every schedule and
every run.

| file | what it models |
|---|---|
| `Linker.dfy` | `tools/make-server.c`: inferring a relocation table from three assemblies, and the patch function it prints |
| `Server.dfy` | `server64.asm` with the macros of `server.h`: load and save, whose pointers live in zero page |
| `Handshake.dfy` | `driver/shm.c` (and the loops of `driver/parport.c`) against the server, one port access a step |
| `Transfer.dfy` | `xlink_load` and `xlink_save` over that handshake |
| `Turnaround.dfy` | `xlink_begin`, `xlink_send`, `xlink_receive`, `xlink_end` |
| `Fifo.dfy`, `UartRx.dfy`, `UartTx.dfy` | the interrupt-driven rings of `driver/servant64/uart.c` |
| `CountRing.dfy` | LUFA's counting ring buffer |
| `UsbPath.dfy`, `UsbReceive.dfy` | chunks, packets and bytes of the USB adapter, against the plain byte loop |
| `Serial.dfy` | `driver/serial.c` and the firmware of the serial adapter |
| `SerialBuffer.dfy` | the firmware's receive buffer, which nothing protects from a fast host |
| `Pins.dfy` | the port pins of that firmware |
| `Placement.dfy` | where the client moves a RAM server before loading over it |
| `Splitter.dfy` | cutting the command line into commands |
| `Bootstrap.dfy` | the BASIC program that `tools/make-bootstrap.c` prints, character for character |
| `Descriptors.dfy` | LUFA's walks over a USB configuration block |
| `Bytes.dfy` | bytes, words and their halves |

Two-process parts (the handshake, the counting ring) are step functions over a state, run by an
arbitrary schedule. Interrupts are arguments: what arrives between two atomic accesses is a list the
caller may choose freely. Time-outs, acknowledges, transfer lengths and whether a driver opens are
parameters too, so every theorem holds for all of them; where one needs a host or a bus of some kind,
that kind has a name (`UsbPath.Tells`, `UsbPath.Delivers`). Reading `$dd0d` clears
the FLAG latch.

## Where the code does less than its documentation

Each of these is stated with the exact condition under which the code does what it is for.

- The linker pairs the k-th low byte with the k-th high byte and undoes the base origin `$0101` with
  two decrements. It is right exactly when the two halves of each reference agree on the low byte of
  the offset, that byte is not `$fe`, and it is `$ff` only for the offset `$ffff`
  (`Linker.LinkerCorrect`).
- The server's transfer pointers and memory configuration are cells of the memory it serves, a load that
  begins where BASIC programs begin ends with two stores of its own, to the BASIC end pointer `$2d`/`$2e`,
  and what a save reads depends on the configuration it asks for: for `$37` it reads as the processor port
  stands, for any other value with that value in the port. So every content of a range makes the round
  trip exactly when the save sees RAM in all of it, the range spares `$c1`-`$c4`, `$fe` and `$ff`, and it
  spares `$2d`/`$2e` if it begins at the address in `$2b`/`$2c` (`Server.TransfersExact`). With the client's
  defaults that is, above the first four pages, exactly a range below `$a000` or in `$c000`-`$cfff`; from
  `$a000` to `$bfff`, for example, a load goes to the RAM and a save returns the ROM (`Transfer.DefaultsExact`,
  `Server.BelowBasicIsLost`).
  These theorems have hypotheses of their own (`Server.Undisturbed`). The range spares the server's own
  code, the processor port, the stack page and the interrupt vector (`Server.Vital`). It spares whatever
  cells the KERNAL's interrupt changes between two commands: clock, keyboard, cursor; which they are is a
  parameter. And no store of the load goes to I/O, which the client's defaults see to
  (`Transfer.DefaultsReachRam`). Nothing is said where one of them fails.
- When a save is over for the PC, the server still drives the port. It does so until it has made two more
  moves, and a strobe made before its first one is lost (`Handshake.SaveEndExact`).
- `xlink_end` or `xlink_begin` while the server has the port forgets a turnaround. A later send drives
  the port together with the server, exactly then (`Turnaround.PortIsShared`).
- The serial firmware is built with 512-byte buffers, so an index is loaded in two halves. A receive
  buffer with bytes in it looks empty exactly when all but 256 slots are full, an interrupt falls
  between the halves and the head then crosses to the page of the tail (`UartRx.WideOverlooks`).
  The number of waiting bytes comes out too high exactly when the head crosses a page in between and the
  255 too many still fit (`UartRx.WideOverstates`). With at most 256 slots everything is exact.
- A torn store of the tail makes the handler drop a byte for which there is room, exactly when the tail
  crosses a page at one particular length (`UartRx.TornTailDrops`).
- The serial firmware counts one byte too many on a time-out, so a late last byte is reported as
  success (`Serial.Line.DriverSend`, `Serial.Line.DriverReceive`). After a send time-out the firmware reads
  the next request right, whatever it is, exactly if everything the host wrote had arrived by the flush
  (`Serial.SendResyncs`).
- Nothing slows the host down on the serial line. The firmware reads what was written exactly if the host
  is never a whole buffer ahead when a byte arrives (`SerialBuffer.InStepExactly`).
- After a time-out the USB firmware keeps the packet in the endpoint's one bank, so that the host gets rid of
  no further one, but ends the request as it ends a successful one. Over any bus and with any host success is
  therefore reported exactly when every packet is delivered, the host reports what it got rid of, and in each
  chunk no byte is late before the last packet (`UsbPath.SuccessExact`); a command header always travels in
  its last packet (`UsbPath.HeaderMisleads`).
- The relocation search runs on a region that starts at 0 for ever when nothing fits
  (`Placement.ZeroStartSticks`). The second region of a C64 never has room
  (`Placement.SecondRegionSkipped`).
- make-bootstrap leaves out the checksum and the line end of a group of eight zeros. The printed
  program works exactly when no group before the last is all zero and the data ends below 65536
  (`Bootstrap.BootstrapRoundTrip`).
- The descriptor walks run for ever exactly when they meet an unwanted descriptor of size zero
  (`Descriptors.TerminatesUnlessStuck`), and look at the type byte behind the block when they come to
  its end. Section 9.6 of USB 2.0 rules the former out.
- A transfer of no bytes is a success over USB and a failure over the parallel port and shared memory
  (`UsbPath.Send`, `UsbPath.Parport.Send`).

## Model

| member | source | states |
|---|---|---|
| Linker.ScanLow | tools/make-server.c:93-106 | the first scan opens one entry for each byte that differs, in order |
| Linker.ScanHigh | tools/make-server.c:108-117 | the second scan completes as many entries as bytes differ, in order, and runs past the table exactly if there are fewer entries |
| Linker.Infer | tools/make-server.c:71-117 | the two scans: sizes must agree; the k-th differing byte of the low image and the k-th of the high image share an entry; the second scan runs past the table exactly if it finds more |
| Linker.Instantiate | tools/make-server.c:148-177 | the emitted loop refuses exactly what ends above $10000, stores outside the image exactly if an entry lies outside, and otherwise leaves the base image with all entries patched |
| Linker.ScanMarks | tools/make-server.c:93-117 | the high scan sees exactly the high halves; the low scan sees the low halves and, besides, the high halves that carry at $0102 |
| Linker.DeltaOfPair | tools/make-server.c:99-115 | the delta built from the two recorded bytes is the reference's offset exactly if both halves agree on the low byte and it does not carry |
| Linker.PatchedIsPatch | tools/make-server.c:169-174 | entries that touch different bytes each put their address into the final image and leave the rest of it alone |
| Linker.NoOverrun | tools/make-server.c:110-117 | with as many low as high halves the second scan never runs past the table |
| Linker.LinkableRelocates | tools/make-server.c:93-174 | for a linkable template the image patched for any address is the template assembled there |
| Linker.RelocatesLinkable | tools/make-server.c:93-174 | only linkable ones among the balanced templates are relocated right to every address |
| Linker.LinkerCorrect | tools/make-server.c:93-174 | relocation is right for every address if and only if the template is linkable |
| Linker.CarryBreaksLinking | tools/make-server.c:99-113 | a reference to offset $fe is linked wrongly |
| Linker.OneReference | tools/make-server.c:93-117 | in numbers: 35 13, 36 13 and 35 14 give one entry, for the offset $1234 in bytes 0 and 1 |
| Linker.OneReferenceAssembles | tools/make-server.c:93-117 | these are the assemblies of that reference, and 34 d2 is the one at $c000 |
| Linker.UnbalancedByAccident | tools/make-server.c:93-117 | why the equivalence asks for balance: a lone high half can relocate although it is not linkable |
| Linker.MakeServer | tools/make-server.c:93-177 | three assemblies, inference and patching together give the program assembled at the wanted address, load address included |
| Server.HeaderTaken | server64.asm:326-334 | each prefix of a command header leaves the server in the matching phase with exactly those header cells stored |
| Server.CommandPointers | xlink.c:330-342 | behind a header the pointers hold the address and the address plus size, both mod 65536 |
| Server.IncrementSteps | server.h:114-117 | the two-byte increment steps the pointer by one, around the end of memory too |
| Server.RoundsExact | server.h:114-126 | the increment-and-compare loop runs size times exactly for the sizes 1 to 65536 |
| Server.EndReached | server.h:119-125 | the comparison is equal after the last round and after no earlier one |
| Server.LoadLoop | server64.asm:108-127 | the load loop stores each byte at its address, in either path, ends with the last byte, then sets the BASIC end pointer if the load began where BASIC programs begin, and leaves $37 in the port behind the slow path |
| Server.LoadExact | server64.asm:95-130 | a load that stays clear of what the server runs on and of I/O leaves the server idle with both pointers at the end; outside the workspace precisely the addressed cells have changed, to the bytes sent, and besides the BASIC end pointer behind a BASIC program and the port after the slow path |
| Server.BasicChecked | server.h:160-174 | the comparison of checkBasic tells whether the load begins at the address in the BASIC start pointer |
| Server.LoadUnfinished | server64.asm:95-125 | before its last byte a load is not over |
| Server.SaveExact | server64.asm:134-166 | a save offers, in order, what the CPU sees of the range with the configuration asked for, or for $37 as the port stands, as many bytes as the loop runs, and then stops |
| Server.SavedIsLoaded | server64.asm:141-156 | a save at any later time returns, outside the workspace, what the load left in the cell if the save sees RAM there, and else the ROM or the I/O above it |
| Server.IntactRoundTrips | xlink.c:323-389 | a load of an intact and undisturbed range and a save at any later time return the bytes loaded |
| Server.WorkspaceFixed | server.h:5-12 | what a save returns from a workspace cell is fixed by the save's own header |
| Server.RoundTripExact | xlink.c:323-389 | every content of an undisturbed range makes the round trip if and only if the range is intact: the save sees RAM there, and it is clear of the workspace and, for a BASIC program, of the BASIC end pointer |
| Server.TransfersExact | xlink.c:323-389 | for every content the load of an undisturbed range changes exactly the range, besides the workspace, the port after the slow path and the BASIC end pointer of a BASIC program, and the save returns it, if and only if the range is intact |
| Server.BasicEndIsLost | server.h:176-185 | three bytes at $2c, with BASIC starting there, come back as the first one, $2f and $00 |
| Server.BelowBasicIsLost | server64.asm:103-150 | with $37 both ways and in the port a load to $a000 reaches the RAM and a save returns the ROM |
| Server.AboveLowPages | server64.asm:95-166 | from $0400 on an undisturbed range comes back, for BASIC programs too, if it lies below $a000 or in $c000-$cfff, or if the load asks for anything but $37 or $b7 and the save for a configuration with the two low bits clear |
| Server.OwnPointerIsLost | server.h:5-6 | one byte at $c1 does not always come back |
| Server.LoadInNumbers | server64.asm:95-130 | a load above the first four pages, from the bytes on the line to every cell of memory, in numbers: a request for $37 or $b7 leaves the port as it is, any other leaves $37 in it, and only the former must keep away from I/O |
| Server.IntoIo | server64.asm:103-125 | a byte for a cell that the port shows as I/O reaches RAM exactly if anything but $37 or $b7 is asked for |
| Server.SaveInNumbers | server64.asm:134-166 | every byte of a save, from the bytes on the line, in numbers: the server's own cells, and for each of the eight configurations where ROM, I/O or RAM is read |
| Handshake.DoKeeps | driver/shm.c:105-199 | every move of either side, time-out or reopening keeps the handshake's invariant |
| Handshake.LockStep | driver/shm.c:105-199 | in every reachable state strobes less flips is 0 or 1, no strobe or flip is missed, never do both sides drive the port, and what was taken is a prefix of what was offered, both ways |
| Handshake.Outcome | driver/shm.c:162-199 | success means all bytes went over in order; a send time-out at index i means i or i+1 bytes were taken, a receive time-out exactly i stored |
| Handshake.OneSideMoves | driver/shm.c:111-146 | until the PC is over exactly one side can move, and that move brings the end closer |
| Handshake.CanFinish | driver/shm.c:162-199 | from every state that meets the invariant the PC can still succeed |
| Handshake.NoDeadlock | server.h:81-101 | every schedule without a time-out can be continued to success |
| Handshake.SendEndsReady | driver/shm.c:162-178 | a send that succeeds, in any schedule, leaves port and server as the next call starts from them |
| Handshake.SaveEndsDriven | server64.asm:158-162 | at the PC's last strobe the server still drives the port, and a further strobe would be lost |
| Handshake.SaveEndExact | server64.asm:158-165 | from then on, whatever happens, the server drives the port if and only if it has made fewer than two moves, and a strobe is lost if and only if it has made none |
| Handshake.SaveReleases | server64.asm:158-165 | two server moves later the port is free and the server waits for a command |
| Handshake.TimeoutEnds | driver/shm.c:166-199 | a time-out ends the call; the PC makes no further move, whatever comes |
| Handshake.SilentServer | driver/shm.c:162-178 | while the server does not move no schedule gets a byte across, and a time-out is possible |
| Handshake.CloseReopens | driver/shm.c:74-75 | closed and opened again between two bytes the driver goes on with the next byte |
| Transfer.LoadAnswers | xlink.c:323-348 | the server reads through every byte of a load |
| Transfer.SaveAnswers | xlink.c:361-389 | the server reads through a save header and then gives exactly the bytes asked for, if and only if they are at most 65536 |
| Transfer.LoadEndToEnd | xlink.c:323-348 | after a load that reports success, in any schedule, the server is idle and memory outside the workspace is exactly what Server.LoadExact says |
| Transfer.LoadSaveEndToEnd | xlink.c:323-389 | a load of an intact and undisturbed range that reports success, then at any later time a save that reports success: in any two schedules the save returns the bytes loaded |
| Transfer.DefaultsReachRam | client.c:654-663 | the configuration that the client picks for a load keeps it from storing into I/O |
| Transfer.DefaultsVisible | machine.c:15-30 | with the client's defaults a save sees RAM in all of a range if and only if it lies below $a000 or in $c000-$cfff |
| Transfer.DefaultsExact | client.c:654-746 | with the client's defaults every content of an undisturbed range from $0400 on makes the round trip if and only if the range lies below $a000 or in $c000-$cfff |
| Turnaround.Link.Send | xlink.c:602-627 | makes the one wait that is due and no other, so no turnaround is lost; the PC drives the port afterwards, also if the transfer fails; both sides drive at once only if one was lost before |
| Turnaround.Link.Receive | xlink.c:643-668 | makes a turnaround strobe exactly after a send, loses none, and never makes both sides drive: the port is released before the strobe |
| Turnaround.Link.End | xlink.c:684-686 | loses the turnaround that is due |
| Turnaround.Link.Session | xlink.c:596-686 | over any run of the calls, the turnarounds lost are the ones abandoned, both sides never drive at once if and only if no send follows one, and all that was asked for is transferred, in order and in the right direction |
| Turnaround.UseStep | xlink.c:596-686 | what one call does to the outstanding turnarounds, and when it makes both sides drive |
| Turnaround.TurnaroundsCounted | xlink.c:596-686 | over any run, strobes less waits grow by one for state INPUT and one for each turnaround abandoned |
| Turnaround.SinceBegin | xlink.c:596-686 | since xlink_begin strobes less waits is 1 in state INPUT and 0 otherwise, if and only if no turnaround was abandoned |
| Turnaround.PortIsShared | xlink.c:596-686 | the two sides never drive the port together if and only if no send opens after an abandoned turnaround |
| Turnaround.TransfersAsked | xlink.c:602-668 | over any run each send that opens transfers once, while the PC drives the port, and each receive once, while it does not |
| Turnaround.EndLosesTheTurn | xlink.c:643-686 | send, receive, end, send goes wrong |
| Fifo.AcceptAllIs | driver/servant64/uart.c:513-523 | a bounded queue keeps what it holds and takes the first arrivals that fit |
| Fifo.MaskWraps | driver/servant64/uart.c:513 | masking with the size less one wraps an index, for a size that is a power of two |
| UartRx.NarrowIsExact | driver/servant64/uart.c:635-637 | with at most 256 slots the test for emptiness is exact |
| UartRx.NeverLooksFuller | driver/servant64/uart.c:635-637 | a buffer that looks non-empty is not empty, whatever its size |
| UartRx.WideOverlooks | driver/servant64/uart.c:635-637 | with more slots, the exact case in which waiting bytes are overlooked |
| UartRx.TwoPagesOverlook | driver/servant64/uart.c:403-407 | the case occurs with 512 slots and 16-bit indices, as driver/servant64/Makefile builds the firmware |
| UartRx.WideOverstates | driver/servant64/uart.c:741-744 | with more slots, what uart0_available reports, and the exact case in which that is more than what waits |
| UartRx.TwoPagesOverstate | driver/servant64/uart.c:741-744 | with 512 slots it reports 511 bytes where 256 wait |
| UartRx.TornTailDrops | driver/servant64/uart.c:515-517 | when a handler between the two halves of a tail store takes the buffer for full, whichever half comes first |
| UartRx.Receiver.Interrupt | driver/servant64/uart.c:486-525 | the interrupt refines a bounded queue: a byte that does not fit is dropped, and the slot just read is never touched |
| UartRx.Receiver.LoadHead | driver/servant64/uart.c:635 | a load of the head in two halves, with interrupts in between |
| UartRx.Receiver.Getc | driver/servant64/uart.c:630-648 | the byte returned is the oldest accepted one wherever the interrupts fall; nothing else is lost |
| UartRx.Receiver.Peek | driver/servant64/uart.c:659-675 | the byte that uart0_getc would return, left in place |
| UartRx.Receiver.Flush | driver/servant64/uart.c:752-755 | empties the queue |
| UartRx.Receiver.Available | driver/servant64/uart.c:741-744 | with at most 256 slots the length at the load of the head, so never more than the true one; with more the value that UartRx.WideOverstates is about; above 0 only if bytes wait |
| UartRx.Receiver.ReadSerial | driver/servant64/xlink.c:190-193 | polling and taking returns the oldest of what waited and of what came in during the polls made; the first poll that reports bytes is the last; with at most 256 slots it never sees "no data" and never polls on while bytes wait |
| UartTx.Transmitter.Interrupt | driver/servant64/uart.c:528-546 | sends the oldest byte, or disables itself when there is none |
| UartTx.Transmitter.FullWhen | driver/servant64/uart.c:687-689 | the wait condition means full, with one slot kept free |
| UartTx.Transmitter.AwaitSpace | driver/servant64/uart.c:687-691 | the wait for space ends with the first interrupt |
| UartTx.Transmitter.StoreHead | driver/servant64/uart.c:694 | the store of the head is what adds the byte to the queue |
| UartTx.Transmitter.Putc | driver/servant64/uart.c:683-699 | sent and waiting bytes are always the bytes put, in order, and while bytes wait the interrupt is enabled |
| CountRing.Apart | driver/at90usb162/LUFA/Drivers/Misc/RingBuffer.h:245-246 | bytes less than a ring apart have different slots |
| CountRing.InsertKeeps | driver/at90usb162/LUFA/Drivers/Misc/RingBuffer.h:239-254 | every access of an insertion keeps the invariant, whatever the other side is doing |
| CountRing.RemoveKeeps | driver/at90usb162/LUFA/Drivers/Misc/RingBuffer.h:266-284 | so does every access of a removal |
| CountRing.RefinesFifo | driver/at90usb162/LUFA/Drivers/Misc/RingBuffer.h:239-284 | in every interleaving the bytes removed are the first inserted, in order, no slot is read before it is written or overwritten before it is read |
| CountRing.InsertionStores | driver/at90usb162/LUFA/Drivers/Misc/RingBuffer.h:239-254 | in every reachable state with room, wherever the consumer is, an insertion stores its byte |
| CountRing.FillsEverySlot | driver/at90usb162/LUFA/Drivers/Misc/RingBuffer.h:223-227 | as many bytes fit as there are slots |
| CountRing.RemovalDelivers | driver/at90usb162/LUFA/Drivers/Misc/RingBuffer.h:266-284 | in every reachable state that is not empty, wherever the producer is, a removal delivers the oldest byte |
| CountRing.EverythingArrives | driver/at90usb162/LUFA/Drivers/Misc/RingBuffer.h:239-284 | every reachable state can be continued until all that was inserted has been removed |
| UsbPath.TraceAlternates | driver/parport.c:213-215 | each byte is written and then strobed |
| UsbPath.ReachedIs | driver/parport.c:212-222 | the bytes that reach the port end with the first late one |
| UsbPath.Parport.Send | driver/parport.c:209-225 | writes and strobes the bytes up to the first that is not acknowledged, and reports how many were |
| UsbPath.Endpoint.HandOver | driver/at90usb162/xlink.c:213-241 | the host gets rid of a packet exactly if the bank is free |
| UsbPath.Adapter.Send | driver/at90usb162/xlink.c:203-247 | packets of at most 64 bytes put the same bytes on the port, as far as the bus delivers them; the host has got rid of them all, or after a time-out of those up to the end of the late byte's packet, which then stays in the bank |
| UsbPath.PutInNumbers | driver/at90usb162/xlink.c:211-242 | of what comes through in packets of 64 bytes all is put on the port up to the first late byte, and that one |
| UsbPath.HandOverRest | driver/at90usb162/xlink.c:232-246 | behind a time-out the host gets rid of nothing more |
| UsbPath.ChunkFits | driver/usb.c:240-258 | what a chunk does behind acknowledged bytes is part of what the plain loop does, and it is complete exactly if all of it was written and acknowledged |
| UsbPath.ControlOut | driver/usb.c:240-244 | one control transfer writes and strobes the bytes up to the first late one, as far as the bus delivers them, and reports at most what the host got rid of |
| UsbPath.Transfer.SendChunk | driver/usb.c:240-258 | a chunk moves the transfer on only if the host counted all of it; an error counts nothing |
| UsbPath.Send | driver/usb.c:260-277 | whatever host and bus do, the result is true if and only if the host counted every chunk in full; with at most one late byte and a bus in order, result and port are as UsbPath.InNumbers says |
| UsbPath.TellingRefines | driver/usb.c:260-277 | with a host that counts a chunk in full exactly if it was acknowledged, the port sees a prefix of the plain loop's sequence, all of it if every packet gets through, and the result is true if and only if every byte was written and acknowledged |
| UsbPath.AllHandedOver | driver/at90usb162/xlink.c:211-246 | the host gets rid of all of a chunk if and only if all its packets are delivered and no byte is late before the last one |
| UsbPath.SuccessExact | driver/usb.c:260-277 | over any bus and with any host success is reported if and only if every chunk is delivered and reported and in none a byte is late before its last packet |
| UsbPath.SuccessPossible | driver/at90usb162/xlink.c:232-246 | some bus and host report success if and only if in no chunk a byte is late before its last packet |
| UsbPath.HeaderMisleads | driver/at90usb162/xlink.c:232-246 | any time-out in a transfer of up to 64 bytes passes for success when bus and host are in order |
| UsbPath.InNumbers | driver/usb.c:240-277 | with one late byte, the rest being in order: success is reported exactly if it is in the last packet, counted in 64s, of its 4096-byte chunk; then only the bytes behind it in the chunk are missing on the port, and else all behind it |
| UsbReceive.PlainPort.Receive | driver/parport.c:229-246 | fills the buffer with the bytes that come in time, strobing once for each |
| UsbReceive.Collector.Packet | driver/at90usb162/xlink.c:263-289 | a packet holds the bytes up to the first that does not come, and is sent on incomplete |
| UsbReceive.Collector.Receive | driver/at90usb162/xlink.c:249-296 | the packets of a request carry the bytes in order up to the first time-out, one strobe for each |
| UsbReceive.PassedInNumbers | driver/at90usb162/xlink.c:257-289 | of what packets of 64 bytes can hold all is passed on up to the first late byte |
| UsbReceive.ControlIn | driver/usb.c:281-285 | one control transfer fills the buffer behind what is there already, and is short exactly if bytes are missing |
| UsbReceive.Transfer.ReceiveChunk | driver/usb.c:281-299 | a chunk moves the transfer on only if it was received completely |
| UsbReceive.Receive | driver/usb.c:301-318 | buffer and strobes are a prefix of the plain loop's, and the same with the same count on a lossless bus; over any bus the result is true if and only if everything expected is in the buffer |
| Serial.Encode32Decodes | driver/serial.c:91-94 | the four argument bytes give the argument back |
| Serial.FrameBytes | driver/serial.c:91-97 | a frame is the command byte and two arguments of four bytes, low byte first |
| Serial.FirstOfWritten | driver/servant64/xlink.c:57-69 | the firmware decodes from a stream the request that was written at its front, and is then at the next one |
| Serial.StreamsDecodeUniquely | driver/serial.c:91-97 | different sequences of requests are different byte streams |
| Serial.Line.AdapterSend | driver/servant64/xlink.c:270-304 | payload, reply and flush of the firmware's Send, with and without a time-out; at each strobe the lines hold the next byte of the payload |
| Serial.Line.AdapterReceive | driver/servant64/xlink.c:308-344 | whichever byte is late, the reply is the bytes asked for, filled up with $ff, and a count; the strobe falls once for each byte in time and no pin has changed |
| Serial.Line.ReadFrame | driver/servant64/xlink.c:60-69 | the nine bytes read are the frame written |
| Serial.Line.Switch | driver/servant64/xlink.c:71-83 | each command byte, 1 to 9, does what it stands for on the pins and answers, and any other does nothing |
| Serial.Line.Serve | driver/servant64/xlink.c:57-85 | one round of the main loop executes exactly the request written and answers it |
| Serial.RequestDoes | driver/serial.c:173-254 | what the firmware does for the request of an operation is what the operation is for |
| Serial.Line.HostWrite | driver/serial.c:79-87 | writes of 16 bytes put all the data on the line |
| Serial.Line.Perform | driver/serial.c:173-267 | an operation executes the request it encoded, gets exactly the reply it reads, and leaves nothing behind for the host; input makes all data pins inputs, output all of them outputs, a write puts its value on the lines, a strobe makes the strobe fall once, acked answers $55 exactly for a pending acknowledge, a send shows its bytes at the strobes in order |
| Serial.Line.DriverSend | driver/serial.c:232-248 | true exactly if no byte but possibly the last one is late; the lines show the data up to the late byte |
| Serial.Line.DriverReceive | driver/serial.c:251-267 | true exactly if no byte but possibly the last one is late; the buffer holds the bytes that came and $ff |
| Serial.Line.Run | driver/servant64/xlink.c:57-85 | in any sequence of operations that leave nothing on the line each does on the pins what it is for and gets its own reply, with both streams empty in between |
| Serial.OnTimeInStep | driver/servant64/xlink.c:277-304 | without a send time-out an operation is executed as encoded and leaves nothing on the line |
| Serial.SendResyncs | driver/servant64/xlink.c:290-293 | after a send time-out the firmware reads every possible next request as written if and only if all that was written had arrived by the flush |
| SerialBuffer.InStepExactly | driver/servant64/uart.c:513-523 | the firmware reads exactly what was written if and only if the host is less than a buffer ahead whenever a byte arrives |
| SerialBuffer.CatchesUp | driver/servant64/xlink.c:190-193 | once nothing more arrives the firmware takes all that waits, and has then read everything that arrived if and only if the host has let it keep up |
| SerialBuffer.ShortStreamsKeepUp | driver/serial.c:79-87 | a stream no longer than the buffer cannot overrun it |
| SerialBuffer.LongStreamsCanOverrun | driver/serial.c:79-87 | a longer one can |
| Serial.LateLastByteReported | driver/servant64/xlink.c:291-323 | the reported count is full if and only if nothing, or the last byte, was late |
| Pins.GatherInvertsScatter | driver/servant64/xlink.c:245-266 | Read finds on the lines what Write has put there |
| Pins.WriteTouchesOnlyData | driver/servant64/xlink.c:257-266 | Write changes no pin but the eight data pins |
| Pins.EachLine | driver/servant64/xlink.c:20-39 | each bit of the byte goes to the pin of the wiring table |
| Pins.InputEffect | driver/servant64/xlink.c:203-212 | all data pins become inputs with pull-ups, nothing else changes |
| Pins.OutputEffect | driver/servant64/xlink.c:216-220 | all data pins become outputs and keep their levels, nothing else changes |
| Pins.DoKeepsSafe | driver/servant64/xlink.c:203-266 | every command keeps the pin invariant |
| Pins.RunSafe | driver/servant64/xlink.c:71-83 | after any run of commands the data pins are all inputs or all outputs, the strobe rests high as an output, and ACK and RESET are inputs |
| Pins.Adapter.constructor | driver/servant64/xlink.c:156-179 | the set-up establishes the invariant from any register contents |
| Pins.StrobeReturns | driver/servant64/xlink.c:224-227 | a strobe pulls its pin low and brings it back, and changes nothing else |
| Pins.Adapter.Execute | driver/servant64/xlink.c:203-266 | the register accesses of each command add up to its effect; the strobe falls once for a strobe command, RESET once for a reset, and neither for any other |
| Placement.OverlapsIsSharing | range.c:118-129 | for proper ranges the six comparisons mean a common address, touching included, and are symmetric |
| Placement.ClampedKeepsInMemory | range.c:87-105 | a move stays in memory and is exact when there is room |
| Placement.Range.Move | range.c:87-105 | the range moves by the clamped amount and keeps its size |
| Placement.SearchRegion | client.c:1006-1018 | the downward search returns the highest fit of a region, or none exactly if there is none, and ends if the region starts above 0 |
| Placement.ZeroStartSticks | range.c:97-100 | at address 0 another round of the search changes nothing |
| Placement.SecondRegionOfC64 | client.c:998-1000 | the second region of a C64 has no room unless lower memory ends above $c000 |
| Placement.SecondRegionSkipped | machine.c:26-28 | for the two values the KERNAL reports it is always skipped |
| Placement.RelocationPossible | client.c:987-1061 | the address found is the highest fit in the first region that has one; false exactly if none has |
| Placement.UsableAfterPossibleRelocation | client.c:934-958 | a move is asked for exactly if the RAM server overlaps the data and some region has room, to the address the search chooses; true exactly if the server is identified and needs no move, or is moved; its final range is then the old one or the one at that address, and shares no address with the data |
| Placement.ChosenIsBest | client.c:987-1061 | the same in the numbers of machine.c: the address found is the highest free one of the first area that has any |
| Splitter.CutUnique | client.c:310-337 | where a command ends depends only on where it begins |
| Splitter.CutRespectsArity | client.c:316-333 | a command of positive arity takes at most that many positionals and ends right at the last one |
| Splitter.ConsumeArguments | client.c:287-337 | one command takes at least one word, as many as it may and no more |
| Splitter.CommandsNew | client.c:167-178 | the words of the commands together are the argument list, and every cut is right |
| Splitter.CutsUnique | client.c:167-178 | there is one way to cut an argument list |
| Splitter.CommandWordsBegin | client.c:312-314 | every command word that is not the argument of an option begins a command |
| Splitter.CommandNames | client.c:263-285 | the seventeen command words and how many positionals they take |
| Splitter.LoadThenReset | client.c:310-337 | where the commands end in a line with an option, its argument and two commands |
| Splitter.ArgumentIsNoCommand | client.c:312-314 | a command word behind an option that takes an argument begins nothing |
| Bootstrap.Padded | tools/make-bootstrap.c:33-39 | the file is filled up with one to eight zeros |
| Bootstrap.ParseDecimal | tools/make-bootstrap.c:87 | a printed number reads back as itself |
| Bootstrap.PrintData | tools/make-bootstrap.c:75-92 | the loop prints one line for each group with its checksum, and no line end for a group of zeros before the last |
| Bootstrap.ItemsOfGroup | tools/make-bootstrap.c:75-92 | BASIC reads a printed line as its eight numbers and their checksum |
| Bootstrap.ItemsOfOpenGroup | tools/make-bootstrap.c:78-80 | without a line end the ninth item is no number |
| Bootstrap.PrintedIsFound | tools/make-bootstrap.c:75-92 | what the whole printed text reads as |
| Bootstrap.RunBasic | tools/make-bootstrap.c:49-52 | the printed loop, its errors and the line it reports |
| Bootstrap.BootstrapRoundTrip | tools/make-bootstrap.c:33-92 | the loop over the printed text pokes exactly the padded file and reports nothing, if and only if no group before the last is zero and the data ends below 65536 |
| Bootstrap.ZeroGroupBreaks | tools/make-bootstrap.c:78-80 | a file that begins with eight zeros stops BASIC |
| Bootstrap.LinesPrinted | tools/make-bootstrap.c:75-92 | without a group of zeros before the last, line k of the text begins with digits that read 1000 + k, then ` data ` and the eight bytes of group k with their sum |
| Bootstrap.TenDigits | tools/make-bootstrap.c:81-87 | printed digits are the characters they stand for |
| Bootstrap.AlteredIsReported | tools/make-bootstrap.c:51-52 | one wrong number makes the loop report exactly the number that the line it stands in begins with |
| Descriptors.Next | driver/at90usb162/LUFA/Drivers/USB/Core/ConfigDescriptors.h:267-277 | the end of the block stays where it is, and the step stands still exactly for size zero or an empty rest |
| Descriptors.StopsAreStarts | driver/at90usb162/LUFA/Drivers/USB/Core/ConfigDescriptors.h:267-277 | over descriptors laid one behind the other, each beginning with its length, the n-th step leads to the beginning of the n-th one |
| Descriptors.AtKeepsEnd | driver/at90usb162/LUFA/Drivers/USB/Core/ConfigDescriptors.h:267-277 | position plus remaining bytes is constant over any number of steps |
| Descriptors.TerminatesUnlessStuck | driver/at90usb162/LUFA/Drivers/USB/Core/ConfigDescriptors.c:74-85 | a walk ends if and only if it meets no unwanted descriptor of size zero |
| Descriptors.NoneEmptyTerminates | driver/at90usb162/LUFA/Drivers/USB/Core/ConfigDescriptors.c:74-85 | every walk over a block without empty descriptors ends |
| Descriptors.AfterTerminates | driver/at90usb162/LUFA/Drivers/USB/Core/ConfigDescriptors.c:108-117 | so do both walks of the search after a type |
| Descriptors.Position.GetNext | driver/at90usb162/LUFA/Drivers/USB/Core/ConfigDescriptors.h:267-277 | one step by the length at the position, cut down to what remains |
| Descriptors.Position.GetNextOfType | driver/at90usb162/LUFA/Drivers/USB/Core/ConfigDescriptors.c:74-85 | ends at the first descriptor of the type behind the start, or with nothing remaining; over a block of descriptors at the beginning of the first one, but the one it starts at, whose second byte is the type |
| Descriptors.Position.GetNextOfTypeBefore | driver/at90usb162/LUFA/Drivers/USB/Core/ConfigDescriptors.c:87-106 | the same, but at the first of the cut-off type nothing remains and the position stays; over a block of descriptors at the beginning of the first of either type |
| Descriptors.Position.GetNextOfTypeAfter | driver/at90usb162/LUFA/Drivers/USB/Core/ConfigDescriptors.c:108-117 | the first of the type behind the first of the other type; so too over a block of descriptors |
| Descriptors.Position.GetNextComp | driver/at90usb162/LUFA/Drivers/USB/Core/ConfigDescriptors.c:119-144 | ends at the first descriptor the comparator judges; if it fails, at exactly the position before; so too over a block of descriptors |
| Descriptors.BeforeRefinesOfType | driver/at90usb162/LUFA/Drivers/USB/Core/ConfigDescriptors.c:74-106 | a walk with a cut-off finds what the plain walk finds unless the cut-off comes first |
| Descriptors.DescriptorsTerminate | driver/at90usb162/LUFA/Drivers/USB/Core/ConfigDescriptors.c:74-144 | every walk over a block of descriptors ends |
| Descriptors.TwoDescriptors | driver/at90usb162/LUFA/Drivers/USB/Core/ConfigDescriptors.c:74-85 | in the block 3 2 4, 3 4 1 the walk after type 4 ends at address 3 with three bytes left |

## Left out

- Linker.LinkerCorrect: the only-if half asks for as many low as high halves and for images that leave 255 bytes of address space; without the balance some templates relocate by accident (`Linker.UnbalancedByAccident`). The if half (`Linker.LinkableRelocates`) does not need either.
- Server.LoadExact: says nothing about a load over the pointer cells `$c1`-`$c4`, where the loop follows whatever was loaded; the exact condition is proved for a load followed by a save (`Server.TransfersExact`).
- Server.LoadLoop: the slow path stores $37 in the port behind every byte, here once at the end, as nothing reads the port in between; interrupts are off until then.
- Server.TransfersExact: says nothing about a range that is not undisturbed: one over the server's code, the processor port, the stack page, the interrupt vector or cells that the KERNAL's interrupt changes, or one whose load stores into I/O. What ROM and I/O show does not change, and the interrupt leaves the low bits of the port alone.
- UartRx.WideOverlooks: at most one interrupt between the two halves of a load; that is what fits between two machine instructions.
- UartRx.Receiver.Getc: the error flags in the upper byte of the result are left out; the store of the tail is one step here, and what a handler sees in the middle of one with more than 256 slots is stated apart (`UartRx.TornTailDrops`).
- UsbPath.Send: a firmware that waits for a packet the host never sends ends the request here; on the device it waits for the watchdog.
- Serial.Line.Perform: whether an acknowledge is pending or comes in time, and what the input pins read, are parameters; the level of ACK that the firmware remembers is left out.
- Serial.Line.Run: the receive buffer is taken not to overflow, which is the subject of `SerialBuffer.InStepExactly`, and a read of the host waits for all its bytes.
- Descriptors.Position.GetNextComp: the comparator depends on the position alone.
- Bootstrap.BootstrapRoundTrip: the file has its two address bytes; the BASIC program itself does not lie in the cells that are poked; numbers are read without BASIC's blanks and exponents, which do not occur.
- Placement.UsableAfterPossibleRelocation: whether the new range avoids the old one, which the code does not check.
- Stores into I/O, cartridges, and the screen switch of the server: hardware.
- The bodies of the commands poke, peek, jump, run, inject and identify: a byte or two over the same handshake.
- The C128 server: the same loops with other cells.
- The BASIC loader that make-server also prints (tools/make-server.c:126-146): a copy loop.
- Device discovery, driver tables, files, option parsing, logging and help texts.
- `xlink_reset`, `xlink_ready`, pings and boot loader entry: retry loops over time.
- What the parallel port does between the close after a failed transfer and the next open.
- The second to fourth serial port of `uart.c`, and the transmit buffer with a torn index.
- The remaining LUFA library: register access and constants.
