# Verified model of the KolibriOS USB-UART driver

The project models the logic of a KolibriOS driver for USB-to-UART bridges (CP210x, FTDI, PL2303, CH340, CDC/ACM)
and of the Linux 3.18 serial drivers kept beside it, and proves what that logic guarantees. It is checked with

    dafny verify dfyconfig.toml

| file | what it models |
|---|---|
| `Cp210xMailbox.dfy` | the mailbox through which a client slips a control request into the self-restarting stream of status polls, as interleaved single steps |
| `DeviceRegistry.dfy` | the doubly linked device list, its numbering, and the life of a handle across hot-plug, open, close and unplug |
| `SerialLifetime.dfy` | the reference count of a `usb_serial` object across probe, lookup, install, cleanup and disconnect, and the table of minors |
| `ReceiveQueue.dfy` | the 1024-byte receive ring |
| `BulkSender.dfy` | the chunked transmitter with short completions |
| `EndpointCache.dfy` | the NULL-terminated table of endpoint records that grows in place |
| `Ch341Divisor.dfy` | the CH341 divisor search in 32-bit unsigned arithmetic |
| `FtdiDivisor.dfy` | the FTDI divisor encodings, the choice among them, and the control request |
| `FtdiTransmit.dfy`, `FtdiReceive.dfy` | FTDI transmit framing and receive de-framing |
| `Cp210xLineControl.dfy` | the CP210x line-control register against termios flags |
| `Pl2303Baud.dfy` | the PL2303 rate table and divisor loop |
| `Bits.dfy`, `Arith.dfy`, `Wrappers.dfy` | shifts, masks, "or" and wrapping counters as arithmetic; facts about numbers; optional values |

Code that changes state is a class with methods (or a method with a loop), proved against functions on values; the
guarantees over whole runs are lemmas about those functions. Kernel calls appear as parameters that say whether they
succeed: memory, pipes, events, transfer submission, minor numbers.

## Where the code departs from what it seems to promise

These results were proved for the code as it is, each with the exact condition under which the intended property holds.

- GET_BYTES compares a TRUE/FALSE result with -1, so its loop never stops early. The longest available prefix is still
  copied and nothing else is touched, but the returned size tells the number of bytes copied exactly when the queue held
  that many (`Queue.GetBytes`).
- GetCreatePipe hands back a pointer to a record it has just freed when opening the pipe or creating the event fails;
  the result is an entry of the table exactly when the key was cached or every kernel call succeeded
  (`Device.GetCreatePipe`).
- Closing a CP210x does not wait for the outstanding poll, so the run open, close, open puts two transfers on the control
  pipe (`OverlapReached`), and a client can then be released before its request is done (`OverlapReleasesEarly`). One
  transfer at most holds exactly in the schedules where every open waits for the completion an earlier session owes
  (`OneTransferExactly`); on a live device, where one completion comes between close and open (`ReopenOverlapsExactly`).
- A waiting client whose submission failed, or that posted on a stopped stream, is never released
  (`NeverReleasedWithoutTransfer`).
- The CH341 clamp expands to its argument. Beside the documented speeds the search also accepts, by wrap-around, those
  congruent to 1 .. 3000000 modulo 2^30, and divides by zero for the multiples of 2^30 (`GetDivisor`).
- The 300 baud entry of the first FTDI chip has table value 0, which reads as "not found" (`SioHonours`).
- Above 1333333 baud the CH341 search takes the slow clock before it rounds, and can miss the nearer divisor 9 of the fast
  one (`SlowClockAbove1333333`); up to there the nearest of both clocks is programmed (`NearestOfBothClocks`).
- The documented PL2303 formula holds exactly above 93750 baud (`FormulaHoldsAbove93750`), and up to 91 baud the shift byte
  has overflowed to 0 (`ShiftByteLostUpTo91`).
- Reading the CP210x line-control register over flags with a stale CMSPAR turns odd and even parity into mark and space;
  otherwise the flags read back are exact (`ReadBackExact`).
- Nobody looks at the result of a bulk submission: after a failed one the packet in progress is never finished and every
  later packet is refused (`StuckWithoutTransfer`).
- An empty packet clears the send-is-free event although the buffer is free, and lets a second packet start over a running
  transfer (`EmptyPacketOverlaps`). Sends keep the transmitter sound exactly if they are refused or not empty
  (`SendKeepsSoundExactly`).
- A handle is the sum of an address and a process number: it must not be 0 modulo 2^32 (`OpenCoherentExactly`). Two
  processes can get the same sum, and a close through it then frees the wrong device (`HandlesOfTwoProcessesClash`). A
  fresh handle finds its device exactly if no earlier device has that sum (`OpenResolvesExactly`), and goes on finding it
  exactly until an earlier device is opened with it (`HandleFindsUntilStolen`); that cannot happen while one process does
  all the opening (`HandlesOfOneProcessResolve`). A device unplugged while open stays in the list for good
  (`UnpluggedWhileOpenStays`).

## Model

| member | source | states |
|---|---|---|
| Cp210xMailbox.Device.CallbackIntr | prj_UsbUart/usbuart.c:290-375 | a completion serves a posted request, frees a served one, restarts the polls, or on a stopped stream only clears the flag |
| Cp210xMailbox.Device.PostRequest | prj_UsbUart/usbuart.c:671-692 | a request is posted exactly if a context exists and its flag is 0, and then carries all six fields |
| Cp210xMailbox.Device.OpenUart | prj_UsbUart/usbuart.c:873-893 | opening gives a zeroed context, or none without memory, and starts the polls in either case |
| Cp210xMailbox.Device.CloseDevice | prj_UsbUart/usbuart.c:627-633 | closing drops the context, and neither waits for nor stops the outstanding transfer |
| Cp210xMailbox.StepKeepsPipe | prj_UsbUart/usbuart.c:318-345 | every client write and every callback keeps at most one outstanding transfer, a client request only under iStatus 2 and a poll only under 0 or 1 |
| Cp210xMailbox.StepKeepsClient | prj_UsbUart/usbuart.c:676-689 | while the client waits the context holds exactly the fields it wrote; a nonzero flag means a waiting client |
| Cp210xMailbox.StepKeepsLog | prj_UsbUart/usbuart.c:321-345 | every posting is submitted at most once, with exactly its fields, in order, and with a poll between any two |
| Cp210xMailbox.RunKeepsInv | prj_UsbUart/usbuart.c:290-375 | all of this in every reachable interleaving, across any number of sessions, over every schedule in which no open overtakes a completion still owed |
| Cp210xMailbox.OneTransferExactly | prj_UsbUart/usbuart.c:290-375 | over any schedule at all, at most one transfer is outstanding throughout exactly if no open comes before the completion an earlier session owes |
| Cp210xMailbox.RunKeepsStream | prj_UsbUart/usbuart.c:318-345 | on an open, present device the stream never dries up, unless a submission fails or the USB stack closes the pipe |
| Cp210xMailbox.StatusTellsTransfer | prj_UsbUart/usbuart.c:325-334 | if no submission has failed, iStatus is 2 exactly when the one outstanding transfer is the request posted last |
| Cp210xMailbox.ReleasedByOwnCompletion | prj_UsbUart/usbuart.c:332-334 | the client is released only by the completion of its own request or by the stop of the stream |
| Cp210xMailbox.CompletionCounts | prj_UsbUart/usbuart.c:321-345 | each successful completion brings a waiting client one step nearer to its release |
| Cp210xMailbox.ReleasedWithinTwo | prj_UsbUart/usbuart.c:686-688 | posted while a transfer is outstanding, a request is released within two completions |
| Cp210xMailbox.ReleasedOnLiveDevice | prj_UsbUart/usbuart.c:686-688 | whatever happened since the start, a request posted on an open, present device without a failed submission is released within two completions |
| Cp210xMailbox.NeverReleasedWithoutTransfer | prj_UsbUart/usbuart.c:686-688 | without an outstanding transfer a waiting client is never released |
| Cp210xMailbox.IdleAfterCompletion | prj_UsbUart/usbuart.c:627-633 | after a close, whatever follows, the pipe is idle exactly if it was idle at the close or one completion has come |
| Cp210xMailbox.ReopenOverlapsExactly | prj_UsbUart/usbuart.c:890-893 | reopening a live device leaves one transfer at most exactly if a completion has come between close and open |
| Cp210xMailbox.OverlapReached | prj_UsbUart/usbuart.c:890-893 | the run open, close, open ends with two transfers on the pipe |
| Cp210xMailbox.OverlapReleasesEarly | prj_UsbUart/usbuart.c:332-334 | from there a client is released by the poll of the other stream while its own request still runs |
| Cp210xMailbox.PostingPosts | prj_UsbUart/usbuart.c:676-685 | the client's writes, one by one, amount to the post of all six fields |
| Cp210xMailbox.InitialInv | prj_UsbUart/usbuart.c:873-875 | a closed device with an idle pipe satisfies the invariant |
| Cp210xMailbox.ContextExactly | prj_UsbUart/usbuart.c:630-633 | over any schedule a context exists exactly if the last open found memory and no close followed, so the mailbox takes requests only on an open device |
| DeviceRegistry.Registry.GotoFirst | prj_UsbUart/usbuart.c:443-444 | walking back from any node reaches the first one |
| DeviceRegistry.Registry.SeekUartDevice | prj_UsbUart/usbuart.c:440-459 | finds a node exactly if it is in the list |
| DeviceRegistry.Registry.SeekToDescriptor | prj_UsbUart/usbuart.c:461-480 | finds the first device with the descriptor, or NULL |
| DeviceRegistry.Registry.SeekToNumber | prj_UsbUart/usbuart.c:820-837 | finds the first device with the number, or NULL |
| DeviceRegistry.Registry.Open | prj_UsbUart/usbuart.c:839-854 | opens exactly a present, free device; sets busy, mode and handle of that one device and keeps the list |
| DeviceRegistry.Registry.Close | prj_UsbUart/usbuart.c:612-641 | clears busy, mode and descriptor of the device the descriptor finds and of no other |
| DeviceRegistry.Registry.FreeNumber | prj_UsbUart/usbuart.c:1235-1249 | the restarting scan ends, by a pigeonhole bound, with the least unused number |
| DeviceRegistry.Registry.Additive | prj_UsbUart/usbuart.c:1220-1262 | the list stays well formed and gains the device at its end under the least unused number; a rejected device changes nothing |
| DeviceRegistry.Registry.Append | prj_UsbUart/usbuart.c:1250-1261 | linking behind the last node from any root keeps one doubly linked list |
| DeviceRegistry.Registry.Disconnected | prj_UsbUart/usbuart.c:1279-1305 | an idle device leaves the list, an open one stays and only loses its presence bit; the list stays well formed |
| DeviceRegistry.Registry.Unlink | prj_UsbUart/usbuart.c:1286-1298 | removing any node keeps one doubly linked list with the root in it |
| DeviceRegistry.Registry.FirstDevice | prj_UsbUart/usbuart.c:1134-1146 | FIRST gives the first node of the list |
| DeviceRegistry.Registry.NextDevice | prj_UsbUart/usbuart.c:1147-1162 | NEXT gives the node behind a listed one and fails for any other |
| DeviceRegistry.Registry.Enumerate | prj_UsbUart/usbuart.c:1134-1162 | FIRST followed by NEXT until it fails visits every device exactly once, in order |
| DeviceRegistry.Pigeonhole | prj_UsbUart/usbuart.c:1238-1249 | n numbers in use need n devices: the bound that ends the scan |
| DeviceRegistry.StepCoherent | prj_UsbUart/usbuart.c:818-854 | hot-plug, open, close and unplug keep numbers distinct, UART mode inside busy, and busy equivalent to a nonzero descriptor |
| DeviceRegistry.RunCoherent | prj_UsbUart/usbuart.c:1279-1305 | the same in every reachable state |
| DeviceRegistry.OpenCoherentExactly | prj_UsbUart/usbuart.c:843-846 | opening keeps coherence exactly if address plus process number is not 0 modulo 2^32 |
| DeviceRegistry.OpenHoldsCloseFrees | prj_UsbUart/usbuart.c:857-861 | opening makes the device held in the requested mode; closing through a handle that leads back to it restores the list as it was |
| DeviceRegistry.HeldStep | prj_UsbUart/usbuart.c:1283-1302 | one step of anything but its own close leaves a held device listed, busy, in its mode and under its handle |
| DeviceRegistry.HeldUntilClosed | prj_UsbUart/usbuart.c:839-854 | between open and close, over any run, no second open succeeds, the mode never changes, and unplugging never unlinks the device |
| DeviceRegistry.OpenResolvesExactly | prj_UsbUart/usbuart.c:843-846 | the handle an open gives out finds the device opened exactly if no earlier device already has that sum for its descriptor |
| DeviceRegistry.HandleFindsUntilStolen | prj_UsbUart/usbuart.c:461-480 | between open and close, over any run, a handle that finds its device goes on finding it exactly until an earlier device is opened with the same sum |
| DeviceRegistry.HandlesOfOneProcessResolve | prj_UsbUart/usbuart.c:844-844 | while one process does all the opening, every handle finds its own device in every reachable state |
| DeviceRegistry.HandlesOfTwoProcessesClash | prj_UsbUart/usbuart.c:844-844 | a reachable state in which two processes hold the same sum: the second one's close frees the first one's device |
| DeviceRegistry.CloseZeroChangesNothing | prj_UsbUart/usbuart.c:627-634 | closing handle 0 changes nothing |
| DeviceRegistry.UnpluggedWhileOpenStays | prj_UsbUart/usbuart.c:1283-1302 | a device unplugged while open never leaves the list, over any run, and keeps its number |
| DeviceRegistry.AbsentNeverOpened | prj_UsbUart/usbuart.c:839-850 | a listed device that is neither present nor open is never open again, over any run |
| DeviceRegistry.OpenSucceedsExactly | prj_UsbUart/usbuart.c:818-854 | an open succeeds exactly if a device with that number is listed, present and not open |
| DeviceRegistry.PlugUnplugRestores | prj_UsbUart/usbuart.c:1250-1302 | a device just plugged in can be opened, and unplugging it again restores the list |
| DeviceRegistry.UnplugTakesOne | prj_UsbUart/usbuart.c:1279-1302 | unplugging leaves every other device as it is; the device itself stays exactly if it was open, and is then absent |
| SerialLifetime.MinorTable.IdrAlloc | prj_UsbUart/linux-3-18/usb-serial.c:99-101 | with memory the lowest free number is taken, without it the table is unchanged |
| SerialLifetime.MinorTable.AllocateMinors | prj_UsbUart/linux-3-18/usb-serial.c:88-114 | succeeds exactly if every allocation does; then all ports have distinct, formerly free minors, otherwise the table after unwinding is as before |
| SerialLifetime.MinorTable.ReleaseMinors | prj_UsbUart/linux-3-18/usb-serial.c:116-125 | exactly the listed minors leave the table |
| SerialLifetime.ReserveAdds | prj_UsbUart/linux-3-18/usb-serial.c:97-104 | reserving adds exactly the given minors, each leading to its own port, and leaves all others |
| SerialLifetime.ReleaseUndoesReserve | prj_UsbUart/linux-3-18/usb-serial.c:108-112 | releasing freshly reserved minors restores the table |
| SerialLifetime.StepKeepsSerials | prj_UsbUart/linux-3-18/usb-serial.c:1042-1108 | every step keeps the count equal to the holders, module and power references equal to the ttys, and lookups inside the live phase |
| SerialLifetime.StepKeepsTable | prj_UsbUart/linux-3-18/usb-serial.c:95-125 | every step keeps table and objects in agreement on who owns which minor |
| SerialLifetime.RunKeepsInv | prj_UsbUart/linux-3-18/usb-serial.c:65-220 | both in every reachable state of any number of objects |
| SerialLifetime.EmptyInv | prj_UsbUart/linux-3-18/usb-serial.c:57-57 | without objects both hold |
| SerialLifetime.DestroyedOnceWithoutHolders | prj_UsbUart/linux-3-18/usb-serial.c:127-159 | destroy_serial is entered once, exactly when probe, lookups and ttys have all given their reference back |
| SerialLifetime.DeadStaysDead | prj_UsbUart/linux-3-18/usb-serial.c:75-82 | an object whose count reached zero is never referenced or destroyed again, over any run |
| SerialLifetime.LookupOnlyWhileLive | prj_UsbUart/linux-3-18/usb-serial.c:65-86 | a lookup hands out a port exactly between the last device_add and the disconnect, and then a referenced one with all its ports registered |
| SerialLifetime.ErrorPathKeepsObject | prj_UsbUart/linux-3-18/usb-serial.c:212-219 | the put on an error path of serial_install is never the last one |
| SerialLifetime.FreedHasNoMinors | prj_UsbUart/linux-3-18/usb-serial.c:135-153 | destroy_serial leaves a freed object with no port in the table, and touches no other object's |
| SerialLifetime.CleanupGivesBack | prj_UsbUart/linux-3-18/usb-serial.c:298-324 | cleanup returns exactly one reference, or none for the console, whose object then survives; module and power references stay one per tty |
| SerialLifetime.PowerFrozenOnDisconnect | prj_UsbUart/linux-3-18/usb-serial.c:315-319 | after the disconnect the power references stay what they were, over any run: none is given back to an interface that is gone |
| SerialLifetime.UsbSerial.KrefPut | prj_UsbUart/linux-3-18/usb-serial.c:127-159 | one reference goes; the last one releases the reserved minors and frees the object |
| SerialLifetime.UsbSerial.FinishInstall | prj_UsbUart/linux-3-18/usb-serial.c:190-219 | all three calls succeed and the tty keeps one reference of each kind, or everything taken is given back |
| SerialLifetime.UsbSerial.DropTty | prj_UsbUart/linux-3-18/usb-serial.c:310-323 | the tty's references go, the power reference only while the object is connected |
| SerialLifetime.UsbSerial.GoLive | prj_UsbUart/linux-3-18/usb-serial.c:1049-1061 | device_add runs for every port before the disconnected flag is cleared |
| SerialLifetime.Core.GetByMinor | prj_UsbUart/linux-3-18/usb-serial.c:65-86 | a port is handed out, with a reference and disc_mutex, exactly if the minor is taken and its object not disconnected |
| SerialLifetime.Core.Install | prj_UsbUart/linux-3-18/usb-serial.c:179-220 | succeeds exactly if the lookup and all three calls do, and then keeps one reference for the tty; on every error path the whole state is as before |
| SerialLifetime.Core.Cleanup | prj_UsbUart/linux-3-18/usb-serial.c:298-324 | gives the tty's reference back, with the destruction that may cause; nothing for the console |
| SerialLifetime.Core.Probe | prj_UsbUart/linux-3-18/usb-serial.c:697-1072 | succeeds exactly if every step does; a registered object owns numPorts minors, a failed probe leaves a freed object and the table as before |
| SerialLifetime.Core.Register | prj_UsbUart/linux-3-18/usb-serial.c:1042-1061 | the minors are distinct and were free, or the object is given up and no minor is taken |
| SerialLifetime.Core.Disconnect | prj_UsbUart/linux-3-18/usb-serial.c:1074-1108 | sets the flag and gives probe's reference back, with the destruction that may cause |
| SerialLifetime.InstallIsRun | prj_UsbUart/linux-3-18/usb-serial.c:179-220 | installing is a lookup followed by keeping its reference, an error path one followed by returning it; the invariant holds after it |
| SerialLifetime.CleanupIsRun | prj_UsbUart/linux-3-18/usb-serial.c:298-324 | cleanup is one step, followed by the destruction if no reference is left; the invariant holds after it |
| SerialLifetime.RegisterIsRun | prj_UsbUart/linux-3-18/usb-serial.c:1036-1061 | a successful probe is the run of creation, flag, minors, one device_add per port and going live; the invariant holds after it |
| SerialLifetime.FailureIsRun | prj_UsbUart/linux-3-18/usb-serial.c:1068-1071 | a failed probe is a run that ends with the destruction, and the table of minors is as before |
| SerialLifetime.DisconnectIsRun | prj_UsbUart/linux-3-18/usb-serial.c:1074-1108 | disconnect is the flag, the put and, if no reference is left, the destruction; the invariant holds after it |
| ReceiveQueue.Queue.PutChar | prj_UsbUart/usbuart.c:164-177 | a byte is appended, or dropped and counted modulo 2^16 when the queue is full; the event bit means nonempty |
| ReceiveQueue.Queue.GetChar | prj_UsbUart/usbuart.c:180-195 | the oldest byte is removed and returned; on an empty queue nothing happens; the event bit means nonempty |
| ReceiveQueue.Queue.BulkInput | prj_UsbUart/usbuart.c:385-425 | an input packet, without the two FTDI status bytes, arrives as far as there is room |
| ReceiveQueue.Queue.GetByte | prj_UsbUart/usbuart.c:513-527 | succeeds exactly on a nonempty queue and returns its oldest byte |
| ReceiveQueue.Queue.GetBytes | prj_UsbUart/usbuart.c:529-547 | copies the longest available prefix and nothing else; the result is the number copied exactly if the queue held enough |
| ReceiveQueue.ArrivedAppend | prj_UsbUart/usbuart.c:416-418 | byte-wise and block-wise arrival agree: once a byte is dropped, all later ones are |
| ReceiveQueue.StepConserves | prj_UsbUart/usbuart.c:164-195 | one arrival or read keeps delivered plus queued equal to accepted, and the overflow counter equal to the bytes dropped modulo 2^16 |
| ReceiveQueue.RunConserves | prj_UsbUart/usbuart.c:164-195 | the same under every interleaving of arrivals and reads |
| ReceiveQueue.PayloadIsData | prj_UsbUart/usbuart.c:385-409 | an FTDI packet of two bytes or more is its two status bytes followed by what arrives; any other packet arrives whole |
| ReceiveQueue.InputConserves | prj_UsbUart/usbuart.c:385-419 | over any interleaving of input packets and reads, delivered plus queued bytes are the packets' data in order, each packet possibly short of its end, the missing bytes counted; all of the data if none is missing |
| ReceiveQueue.DropsNewest | prj_UsbUart/usbuart.c:165-174 | the queue keeps its old bytes and takes the first new ones up to 1024 |
| BulkSender.Sender.SendPacket | prj_UsbUart/usbuart.c:643-669 | accepts exactly a packet of at most 1024 bytes while no packet is in progress, and then submits its first chunk |
| BulkSender.Sender.MaxPacketLength | prj_UsbUart/usbuart.c:549-560 | a client is told 1024 |
| BulkSender.Sender.CallbackBulkOut | prj_UsbUart/usbuart.c:213-240 | advances by the completed length and submits the next chunk, or frees the buffer |
| BulkSender.StepSound | prj_UsbUart/usbuart.c:220-239 | every event keeps: event bit equals empty buffer, one chunk of 1 to 64 bytes outstanding, and the wire carries the finished packets and the accepted part of the current one |
| BulkSender.CompleteSound | prj_UsbUart/usbuart.c:220-239 | the same for a completion of any length up to the transfer, down to zero |
| BulkSender.RunSound | prj_UsbUart/usbuart.c:213-240 | the same over any run, failed submissions included |
| BulkSender.RefusedWhileBusy | prj_UsbUart/usbuart.c:650-664 | a further packet is refused and changes nothing while one is in progress |
| BulkSender.PacketCompletes | prj_UsbUart/usbuart.c:220-235 | a packet is finished exactly when the completions have accepted all of it, and shrinks by the accepted bytes until then |
| BulkSender.SentGrows | prj_UsbUart/usbuart.c:228-235 | finished packets stay finished, in order |
| BulkSender.FullCompletions | prj_UsbUart/usbuart.c:223-227 | with full completions a packet of n bytes takes exactly n / 64 transfers, rounded up |
| BulkSender.AcceptsUpToMaximum | prj_UsbUart/usbuart.c:648-650 | an idle transmitter accepts exactly the packets up to the length a client is told |
| BulkSender.StuckWithoutTransfer | prj_UsbUart/usbuart.c:220-227 | after a failed submission the packet is never finished and every later one refused |
| BulkSender.SendKeepsSoundExactly | prj_UsbUart/usbuart.c:650-658 | a send keeps event bit, chunk bounds and wire contents as they should be exactly if the packet is not empty or is refused |
| BulkSender.EmptyPacketOverlaps | prj_UsbUart/usbuart.c:650-660 | after an empty packet another one is accepted over a running transfer |
| EndpointCache.Device.Find | prj_UsbUart/usbuart.c:82-90 | the scan finds the entry with the key, or counts all entries |
| EndpointCache.Device.GetCreatePipe | prj_UsbUart/usbuart.c:76-161 | a cached key gives the same entry, a new one is appended, a failed creation leaves the map unchanged; the result is an entry exactly if cached or fully created |
| EndpointCache.Device.Create | prj_UsbUart/usbuart.c:92-135 | NULL exactly on the two memory failures; a pointer to a freed record on the other two; otherwise a new last entry |
| EndpointCache.Device.GrowTable | prj_UsbUart/usbuart.c:97-105 | growth keeps every earlier entry and a NULL behind them |
| EndpointCache.Device.ClosePipes | prj_UsbUart/usbuart.c:482-509 | destroys every event once, frees every entry, closes pipes only of a present device and never endpoint 0, and empties the map |
| EndpointCache.RunKeepsUnique | prj_UsbUart/usbuart.c:82-90 | keys stay unique over any sequence of requests and closes |
| EndpointCache.RunKeepsEntries | prj_UsbUart/usbuart.c:92-121 | between closes entries are only appended, and a key is new exactly if a successful creation asked for it |
| Ch341Divisor.HighestClockBelow512 | prj_UsbUart/ch340_div.c:41-45 | the loop finds the highest base clock whose divisor is strictly less than 512 |
| Ch341Divisor.FloorOfChosenClock | prj_UsbUart/ch340_div.c:50-63 | the divisor is the exact quotient of the chosen clock rounded down, in range, and at least 64 (32 with the quirk) up to 23437 baud |
| Ch341Divisor.RoundingNeverWraps | prj_UsbUart/ch340_div.c:72-73 | the two rates of the rounding test enclose the request, so no unsigned subtraction wraps |
| Ch341Divisor.RoundedIsNearest | prj_UsbUart/ch340_div.c:72-74 | no divisor of the chosen clock comes closer to the request, in truncated 1/16 bps |
| Ch341Divisor.NearestOfBothClocks | prj_UsbUart/ch340_div.c:52-84 | up to 1333333 baud no permitted divisor of either clock of the prescaler comes closer to the request than what is programmed |
| Ch341Divisor.SlowClockAbove1333333 | prj_UsbUart/ch340_div.c:59-63 | above that the slow clock is used; at 1400000 baud the fast one with divisor 9 would come closer |
| Ch341Divisor.ProgrammedIsValid | prj_UsbUart/ch340_div.c:81-86 | div in [2,256] for fact 0, odd in [9,255] for fact 1, fact 0 under the quirk; the even-divisor rewrite keeps the programmed rate |
| Ch341Divisor.ProgrammedRateError | prj_UsbUart/ch340_div.c:50-84 | the programmed rate is within speed/(2D+1) + 1/16 bps of the request |
| Ch341Divisor.WordRoundTrip | prj_UsbUart/ch340_div.c:86-94 | the packed word, with and without bit 7, decodes to the same ps, fact and div |
| Ch341Divisor.ExampleWords | prj_UsbUart/ch340_div.c:4-6 | the two example words of the source decode to what is programmed for 9600 and 115200 baud |
| Ch341Divisor.SelectClock | prj_UsbUart/ch340_div.c:41-66 | in wrapping arithmetic, exactly which speeds give a clock, an error or a division by zero |
| Ch341Divisor.NextIsCloser | prj_UsbUart/ch340_div.c:72-74 | the unsigned comparison is the comparison of distances where the rates enclose the request |
| Ch341Divisor.GetDivisor | prj_UsbUart/ch340_div.c:25-87 | for every 32-bit speed, when the search succeeds, fails or divides by zero; in range its result is the divisor the lemmas describe |
| Ch341Divisor.MyGetDivisor | prj_UsbUart/ch340_div.c:89-95 | the word sent decodes to the result of the search; the error word comes back for every failing search and for no other |
| Ch341Divisor.ErrorKeepsBit7 | prj_UsbUart/ch340_div.c:94-94 | setting bit 7 of -EINVAL changes nothing |
| FtdiDivisor.BmRoundTrip | prj_UsbUart/ftdi.c:7-22 | the BM encoding decodes to the same divisor exactly for 1 to 131071 eighths, special values included |
| FtdiDivisor.BmInjective | prj_UsbUart/ftdi.c:7-22 | and is injective there |
| FtdiDivisor.FractionTable | prj_UsbUart/linux-3-18/ftdi_sio.h:131-142 | the fraction codes stand for the eighths the header lists, in both directions |
| FtdiDivisor.BmRate | prj_UsbUart/ftdi.c:24-27 | up to 3 Mbaud the decoded divisor is the exact one exactly from 184 baud on; the rate is never below the request and above it by less than one part in the divisor |
| FtdiDivisor.HRoundTrip | prj_UsbUart/linux-3-18/ftdi_sio.c:1080-1103 | the hi-speed encoding with its flag decodes to the same divisor |
| FtdiDivisor.HRate | prj_UsbUart/linux-3-18/ftdi_sio.c:1105-1108 | the same rate bound for hi-speed chips from 1200 to 12000000 baud |
| FtdiDivisor.SnapIsNearest | prj_UsbUart/linux-3-18/ftdi_sio.c:1039-1048 | the AM rounding gives the nearest divisor with fractions 0, 1/8, 1/4, 1/2, ties downward |
| FtdiDivisor.AmSelectsNearest | prj_UsbUart/linux-3-18/ftdi_sio.c:1034-1052 | the AM encoding selects that nearest divisor exactly for 1 to 131070 eighths |
| FtdiDivisor.AmCoincidesWithBm | prj_UsbUart/linux-3-18/ftdi_sio.c:1034-1073 | AM and BM values agree exactly for 0, 1, 2 or 4 eighths other than the divisor 1.5 |
| FtdiDivisor.DivisorSelectsReportedRate | prj_UsbUart/linux-3-18/ftdi_sio.c:1214-1294 | on every chip type the returned value encodes the reported rate, exactly if that is at least 184 baud (always on the table-driven chip) |
| FtdiDivisor.SioHonours | prj_UsbUart/linux-3-18/ftdi_sio.c:1217-1236 | without a custom divisor the first chip honours exactly the tty's rates of its table without 300, and reports 9600 for all others |
| FtdiDivisor.ReportsTtyRate | prj_UsbUart/linux-3-18/ftdi_sio.c:1198-1284 | the tty's own rate is reported exactly within the limits of the chip, otherwise 9600, or 1200000 for an NDI device at 19200 |
| FtdiDivisor.CustomRate | prj_UsbUart/linux-3-18/ftdi_sio.c:1205-1215 | with a custom divisor 38400 baud means the base rate divided by it, rounded down, or 9600 where that is 0 |
| FtdiDivisor.HiSpeedFormExactly | prj_UsbUart/linux-3-18/ftdi_sio.c:1265-1277 | a hi-speed chip gets the hi-speed form exactly from 1200 to 12000000 baud |
| FtdiDivisor.RequestLossless | prj_UsbUart/linux-3-18/ftdi_sio.c:1305-1313 | value and index of the control request give divisor and interface number back |
| FtdiDivisor.RequestSelectsReportedRate | prj_UsbUart/linux-3-18/ftdi_sio.c:1297-1313 | on every chip the divisor in the control request, in the form the chip gets, selects the reported rate from 184 baud on (always, on the table-driven chip), and the interface number arrives beside it |
| FtdiDivisor.TtyRateArrives | prj_UsbUart/linux-3-18/ftdi_sio.c:1198-1313 | without a custom divisor, within the limits of the chip and apart from NDI devices at 19200, the rate set on the tty is reported and selected by the request |
| FtdiTransmit.Port.FifoOut | prj_UsbUart/linux-3-18/ftdi_sio.c:1962-1962 | takes the longest possible prefix off the FIFO and writes nothing else |
| FtdiTransmit.Port.WriteFrame | prj_UsbUart/linux-3-18/ftdi_sio.c:1961-1967 | one round adds one frame with the next bytes of the FIFO, or nothing if it is empty |
| FtdiTransmit.Port.WriteFrames | prj_UsbUart/linux-3-18/ftdi_sio.c:1954-1969 | the frames written parse to exactly the bytes taken, contiguously; it stops only on an empty FIFO or when no frame fits |
| FtdiTransmit.Port.PrepareWriteBuffer | prj_UsbUart/linux-3-18/ftdi_sio.c:1945-1977 | the same for the whole call, with the returned count and the transmit counter; other chips get the bytes bare |
| FtdiTransmit.DeframeAppend | prj_UsbUart/linux-3-18/ftdi_sio.c:1960-1968 | a frame behind full packets adds exactly its data to what the chip parses |
| FtdiTransmit.FullAppend | prj_UsbUart/linux-3-18/ftdi_sio.c:1960-1961 | a full frame keeps the buffer open for another one |
| FtdiReceive.Port.CompareStatus | prj_UsbUart/linux-3-18/ftdi_sio.c:1994-2012 | each modem counter advances exactly if its line differs from the last known state |
| FtdiReceive.Port.LineStatus | prj_UsbUart/linux-3-18/ftdi_sio.c:2014-2034 | one error flag by precedence, its counter, and an overrun mark on its own |
| FtdiReceive.Port.ProcessPacket | prj_UsbUart/linux-3-18/ftdi_sio.c:1981-2058 | one packet acts on counters, status and flip buffer as specified; the result is its payload length |
| FtdiReceive.Port.ProcessReadUrb | prj_UsbUart/linux-3-18/ftdi_sio.c:2060-2076 | the whole buffer acts as its packets in order: payload, byte counter and modem counters are those of the row ReadBuffer, and the result is the number of payload bytes |
| FtdiReceive.CountsChanges | prj_UsbUart/linux-3-18/ftdi_sio.c:1997-2012 | over any packets each 32-bit modem counter advances by the number of changes of its line |
| FtdiReceive.CountsErrors | prj_UsbUart/linux-3-18/ftdi_sio.c:2014-2034 | over any packets each error counter advances by the number of packets that report the error |
| FtdiReceive.RemembersLast | prj_UsbUart/linux-3-18/ftdi_sio.c:2011-2011 | the port remembers the last state reported |
| FtdiReceive.RemembersEmpty | prj_UsbUart/linux-3-18/ftdi_sio.c:2036-2040 | the port remembers whether the transmitter was last reported empty |
| FtdiReceive.InsertsPayload | prj_UsbUart/linux-3-18/ftdi_sio.c:2030-2055 | the flip buffer grows by the marked payload of every packet, in order |
| FtdiReceive.CountsPayload | prj_UsbUart/linux-3-18/ftdi_sio.c:2045-2045 | every payload byte is counted |
| FtdiReceive.ReadBuffer | prj_UsbUart/linux-3-18/ftdi_sio.c:2060-2076 | for any read buffer: apart from overrun marks the tty gets exactly its payload, in order; all of it is counted; each modem counter advances by the changes of its line, each error counter by the packets that report the error |
| FtdiReceive.ReprocessingAddsNothing | prj_UsbUart/linux-3-18/ftdi_sio.c:1994-1998 | processing a packet again moves no modem counter |
| FtdiReceive.CutCovers | prj_UsbUart/linux-3-18/ftdi_sio.c:2069-2072 | the packets are the buffer, nothing skipped, all but the last of full size |
| FtdiReceive.PacketAt | prj_UsbUart/linux-3-18/ftdi_sio.h:505-541 | packet j is what stands at j * max in the buffer: the lines and errors by the header's bit numbers, the gravest of three errors as the mark, and every byte behind the two status bytes |
| FtdiReceive.InsertedAt | prj_UsbUart/linux-3-18/ftdi_sio.c:2030-2055 | character by character what one packet inserts: a NUL under the overrun mark if there was one, then every byte under the packet's mark |
| Cp210xLineControl.Device.SetTermios | prj_UsbUart/linux-3-18/cp210x.c:681-754 | a register that encodes the old settings encodes the new ones; reserved bits never change; exactly the changed fields are written |
| Cp210xLineControl.Device.GetTermios | prj_UsbUart/linux-3-18/cp210x.c:515-600 | the register is normalised, the flags are read, and one write happens per unsupported field |
| Cp210xLineControl.UpdatedEncodes | prj_UsbUart/linux-3-18/cp210x.c:681-754 | rewriting only the changed fields turns an encoding of the old flags into one of the new |
| Cp210xLineControl.ReadNormalises | prj_UsbUart/linux-3-18/cp210x.c:534-547 | one read leaves a supported setting, so the next writes nothing; it writes nothing exactly on a supported setting |
| Cp210xLineControl.ReadRepairsOnly | prj_UsbUart/linux-3-18/cp210x.c:534-596 | supported fields and reserved bits stay; an unsupported field becomes 8 data bits, no parity or one stop bit, with one write for each |
| Cp210xLineControl.ReadKeepsOtherFlags | prj_UsbUart/linux-3-18/cp210x.c:521-598 | all flags but those of size, parity and stop bits are left as they were |
| Cp210xLineControl.ReadBackExact | prj_UsbUart/linux-3-18/cp210x.c:550-579 | the flags read express the register exactly unless a stale CMSPAR meets odd or even parity |
| Cp210xLineControl.WriteReadRoundTrip | prj_UsbUart/linux-3-18/cp210x.c:513-600 | written settings are recovered from cleared parity flags |
| Pl2303Baud.GetSupportedBaudRate | prj_UsbUart/linux-3-18/pl2303.c:325-348 | the nearest rate of the table, ties upward; the request itself exactly if the table has it |
| Pl2303Baud.TieGoesUp | prj_UsbUart/linux-3-18/pl2303.c:339-347 | halfway between 14400 and 19200 the higher rate is the nearest |
| Pl2303Baud.EncodeDivisor | prj_UsbUart/linux-3-18/pl2303.c:362-382 | the four bytes: the division by the least sufficient power of four, the byte-wide shift, 0 and 0x80 |
| Pl2303Baud.QuarteredIsFloor | prj_UsbUart/linux-3-18/pl2303.c:375-376 | k shifts by two give T / 4^k rounded down |
| Pl2303Baud.StepsIsLeast | prj_UsbUart/linux-3-18/pl2303.c:375-378 | the loop stops at the least k with T / 4^k below 256, and at 64 or more after at least one round |
| Pl2303Baud.FormulaHoldsAbove93750 | prj_UsbUart/linux-3-18/pl2303.c:367-379 | the documented formula holds exactly for at most two rounds, that is above 93750 baud |
| Pl2303Baud.ShiftByteIsPower | prj_UsbUart/linux-3-18/pl2303.c:374-378 | the shift byte is 2^k for one to seven rounds and 0 from the eighth on |
| Pl2303Baud.ShiftByteLostUpTo91 | prj_UsbUart/linux-3-18/pl2303.c:374-379 | it is 0 exactly above 1500000 baud, where no round is needed, and up to 91 baud, where it has overflowed |
| Pl2303Baud.EncodeBaudRate | prj_UsbUart/linux-3-18/pl2303.c:384-413 | rates of the table go out directly, all others as divisor bytes, distinguishable by the top byte; the reported rate is the request or, if lower, the chip's maximum |
| Pl2303Baud.DirectWord | prj_UsbUart/linux-3-18/pl2303.c:354-360 | a direct word is the rate itself in little-endian order with a zero top byte |

## Left out

- FtdiReceive.Port.ProcessPacket: a console port, whose characters pass through the sysrq handler, and usb_serial_handle_break; neither handler is part of the repository.
- FtdiReceive.Port.ProcessReadUrb: the same.
- Cp210xMailbox.Device.CallbackIntr: only the CP210x branch, without the line status it also picks up; the CDC/ACM branch only restarts its own pipe.
- Cp210xMailbox.Device.PostRequest: a single client thread; that the compiler re-reads iStatus in the waiting loop is taken for granted.
- Cp210xMailbox.Device.OpenUart: the enable request before it, which is waited for, is not among the transfers counted, and the bulk receiver it starts runs on another pipe.
- Cp210xMailbox.Device.CloseDevice: ClosePipes also frees the endpoint record that the outstanding poll carries as its call data (usbuart.c:503, 630), so that a completion after the close reads freed memory; here such a completion runs as if the record were still there.
- DeviceRegistry.Registry.Close: the pipes and the context it also releases are the subject of EndpointCache.Device.ClosePipes and Cp210xMailbox.Device.CloseDevice.
- ReceiveQueue.Queue.BulkInput: the line status it also picks up, and the restart of the receiver.
- Ch341Divisor.MyGetDivisor: which divisor an unsupported speed from 2^30 on gets by wrap-around; only that it is not the error word.
- SerialLifetime.UsbSerial.KrefPut: the driver's release callback, and the puts of the ports, the interface and the device.
- SerialLifetime.Core.Install: the driver's init_termios, which runs after it.
- SerialLifetime.Core.Disconnect: the hangup of the ttys and the teardown of the ports between the flag and the put.
- SerialLifetime.Core.Register: whether a device_add succeeds; the code goes on either way.
- SerialLifetime.Core.Probe: the endpoint scan and the allocation of ports before the attach function are one flag, and the module reference held during the call is not counted; one function call at a time; the interleavings of several threads are the steps of the state machine, of which each call is a run.
- BulkSender.Sender.CallbackBulkOut: a completion never exceeds the transfer it completes.
- EndpointCache.Device.Create: the old table of a first creation that failed is not freed by the code; memory that nobody refers to any more is not tracked.
- DeviceRegistry.Registry.Disconnected: the USB stack reports a device once, while it is in the list.
- DeviceRegistry.Registry.Additive: device numbers are unbounded, and the table of known vendor and product numbers is a parameter.
- Cp210xLineControl.Device.GetTermios: every register access succeeds.
- Cp210xLineControl.Device.SetTermios: every register access succeeds; baud rate and flow control are separate registers.
- FtdiTransmit.Port.PrepareWriteBuffer: a buffer of at least one byte, and on the SIO chip packets of 2 to 64 bytes, the sizes a one-byte header can describe.
- Pl2303Baud.EncodeDivisor: rates of at least 1 baud; the caller returns early for 0.
- FtdiDivisor.GetDivisor: no negative baud rates or custom divisors.
- The pipes, events, mutexes, kfifo and idr of the kernels, and the memory behind freed records: atomic steps, sequences and maps here.
- The USB endpoint scan and urb allocation of probe, suspend and resume, sysfs, hangup and the console: plumbing into code not part of the repository.
- Known-device tables, descriptions, logging, status-line translation, raw control and bulk commands, and baud rate quantising of the CP210x: settled by reading the branches.
- The driver's start and stop routine, which frees the whole list without regard to open handles.
