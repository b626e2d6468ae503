# Serial port library: verified models

This project models the three parts of the repository whose correctness is not obvious from reading one function,
and proves what they are for.

**The RFC 2217 redirector** (`sercd.c`, with the port settings of `unix.c`). One side is a serial device, the other a
Telnet client; between them are two ring buffers, a byte-at-a-time parser for Telnet and COM-port commands, an
escaper, an option-negotiation table and an event loop.

- `RingBuffers`: the circular buffer, as a class over an array, refining a bounded FIFO.
- `Ports`, `ModemView`: termios settings, the modem-state byte, and what a client learns from the notifications.
- `Telnet`: what one byte, one option command and one COM-port command do, as functions on values.
- `TelnetStreams`: the same over streams of bytes: what is put in comes out, and in which order.
- `Commands`: every command from its bytes on, for all kinds and values: what it changes and what it is answered with.
- `Replies`: byte budgets, the form of replies, and what a client knows of the port.
- `Negotiation`, `Convergence`, `ByteConvergence`: the option ledger of one endpoint, and two endpoints settling, by
  packets and by bytes.
- `Connections`: one connection as a function of the reads and polls that happened to it; the account of its bytes.
- `Clients`: a client's side: what it hears of the network's bytes, and when that is the device's bytes and the
  server's answers in their places.
- `Iterations`: the phases of the main loop, one iteration and any number of them, as functions on values.
- `Outcomes`: exactly when an iteration keeps its client, drops it or stops the program, and what outlives a client.
- `Turns`: what an iteration reads, polls and writes, in numbers, and what the two flow commands make of whole runs.
- `Redirectors`: sercd.c's statics as a class, its functions as methods that change it in place, the phases of the
  main loop, one iteration and any number of them, each proved against the functions above.
- `Scenarios`: whole runs of a new redirector, a first client served and the ways to lose one.

**The frame parser and the checksums** (`SerialFrameParser.kt`, `Checksum.kt`).

- `Bitwise`, `Folds`: bytes, the bitwise operators as recursion over bits, and general facts on folds.
- `Checksums`, `CrcDetection`: the loops, and the errors the Modbus CRC always detects.
- `CrcDivision`: the Modbus CRC is the remainder of a division of polynomials; what the other two checksums count.
- `Frames`: the parser as a class, against a function for one turn of its loop.
- `FrameStreams`, `FrameRoundTrip`: whole streams, however cut, through noise and damage.
- `Resynchronisation`: frames found again behind headers that declare an impossible size.

**The session** (`SerialSession.kt`, `ReconnectPolicy.kt`).

- `Sessions`: senders, writer, reader and response timers, over one channel after another, as steps in any order.
- `SessionProgress`: who can go on when, and what becomes of a command: accepted, tried, answered or given up.
- `SessionWorkers`: the same steps as methods of a class, any interleaving of them, and the writer's retry loop.
- `Reconnects`: failures, reconnect loops and their delays as steps in any order.

The environment is a parameter everywhere: what a read or a write returns (an error, EWOULDBLOCK, or some of the
bytes), which events select reports, whether the port opens and with which settings, what the modem lines are,
whether a transport write succeeds, what chunk arrives and when coroutines are cancelled.

## Where the code does not do what it says

Each of these is kept as it is in the model, and the lemma named says when the promise holds.

- A blocked write counts as minus one bytes and moves the read position back: a stale byte is sent again, or a full
  buffer is emptied (`Redirector.DeviceBlocked`, `Redirector.NetworkBlocked`). No other write result breaks the
  account of a connection (`Redirector.DeviceOut`, `Redirector.SocketOut`, `IntactExactlyWhenNothingIsLost`).
- A blocked read is minus one bytes as well, and the loop over what was read compares that with an unsigned index.
  Where ssize_t has 64 bits nothing is read (`BlockedReadIsNothingWide`); on the 32-bit ABIs the loop runs on until
  the program stops (`StopsExactlyWhen`, `BlockedReadStopsExactlyWhenNarrow`). After a device read it overfills the
  buffer (`OverrunOverfills`), where an assertion stops it if there is one; without, or after a socket read, whose
  bytes may fill nothing (`SignatureSwallows`), it stops at the end of the memory it may read, which is not modelled.
- Reading zero bytes for want of room is taken for the end of the stream and drops the client: device data read
  earlier in the same iteration can use up the room the loop head checked (`DropsExactlyWhen` says exactly when,
  `ClientIsLostForWantOfRoom` is such a run, `RoomHoldsWithoutCompetition` says when it cannot happen).
- The room for a modem notification is checked at the loop head too. If it is gone by then, the assertion in
  `AddToBuffer` stops the program where it is compiled in; the libraries under jniLibs are built without it, and
  there nearly everything that waits for the client is lost (`StopsExactlyWhen`, `PollStopsOrLoses`,
  `IntactExactlyWhenNothingIsLost`; `QuietPollsFit` says when it cannot happen).
- The parser's state outlives a connection: after a client that left in the middle of a command, the next client's
  first command is not heard (`WillBinaryIsHeardExactlyWhen`, `SecondClientIsNotHeard`). The first client is safe
  (`ServeFirstClient`).
- Parameters of fixed-length COM-port commands are not unescaped, and signatures over 249 bytes are truncated
  (`StreamArrivesExactlyWhenItSurvives`).
- A speed is sent in the width of long, so where that is eight bytes a client that reads RFC 2217, which gives a
  speed four octets, reads no confirmation of it at all (`SpeedReplyIsCanonicalExactlyWhen`,
  `ConfirmationReadsExactlyWhen`).
- Outside binary mode a reply that follows a CR carries a NUL inside its sub-negotiation
  (`ReplyIsCanonicalExactlyWhen`); a setting's confirmation cannot be read then (`ConfirmationReadsExactlyWhen`,
  `LastConfirmationIsCurrent`).
- The server's last byte written counts replies in, a client's last byte of data does not: outside binary mode a
  device byte after a reply can reach the client with a NUL before it, and a NUL not at all
  (`ClientHearsExactlyWhen`, `NulIsTakenForData`).
- `InputFlow`, the two masks and the break flag outlive a connection like the parser's state: after a client that
  suspended its output and left, the next one is sent nothing from the device until it sends RESUME
  (`NewClientFinds`, `SuspendedIsDeaf`).
- The budget macro for the initial offers says 9 bytes, 18 are sent (`InitialOffersExceedBudget`).
- `ModemState` outlives a connection and a change of the mask, so a client may be told nothing of lines that are up
  (`ViewIsLastPolledLines`, `InStepAfterMaskChangeExactlyWhen`).
- A four-byte frame length wraps as a signed Int (`AcceptedSizeIsDeclaredSize`, `WrappedLengthIsAccepted`); a footer
  and a trailing checksum claim the same bytes (`FooterAndTrailingChecksumCollide`); a checksum of no bytes rejects
  every frame (`EmptyChecksumRejectsEverything`); a chunk one byte over the bound can cost a frame
  (`LargerChunkCanLoseFrame`).
- A command whose maxRetries is the greatest Int is never tried: maxRetries + 1 wraps to a negative count, and the
  handle completes with Failed (`EveryCommandIsTried`, `GreatestRetriesNeverTry`).
- One field holds the command that waits for a response, so the next command with a matcher takes its place; its
  timer then finds another and ends, and its handle never completes. Nor does that of a command dropped from the
  queue or left in it by a cancelled writer (`MayCompleteExactlyWhen`, `OverwrittenIsForsaken`).
- The reconnect flag is taken before the session looks whether it was closed, and is taken down by the loop itself:
  a close in between, or one that cancels a loop before it begins, leaves it up for good
  (`FlagOutlivesLoopsExactlyWhen`, `StrandedForGood`, `FlagMayOutliveLoops`).

## Model

| member | source | states |
|---|---|---|
| Checksums.Crc16Modbus | library/src/main/kotlin/io/android/serial/api/Checksum.kt:19-26 | The nested loops compute the CRC whose detection properties are proved below. |
| Checksums.AppendedIsExactlyWhatPasses | library/src/main/kotlin/io/android/serial/api/Checksum.kt:29-35 | For every checksum of fixed width, hasChecksum accepts exactly the arrays withChecksum makes. |
| Checksums.SubstitutionChangesSums | library/src/main/kotlin/io/android/serial/api/Checksum.kt:11-17 | Replacing any one byte changes both one-byte checksums. |
| CrcDetection.CrcLoopIsBitLoop | library/src/main/kotlin/io/android/serial/api/Checksum.kt:20-24 | The byte-wise register loop equals a bit-serial register fed the bits least significant first. |
| CrcDetection.PassesExactlyWhenLoopEndsAtZero | library/src/main/kotlin/io/android/serial/api/Checksum.kt:19-35 | A word passes the check exactly when it has two bytes or more and the loop over all of it ends at 0. |
| CrcDetection.BurstIsDetected | library/src/main/kotlin/io/android/serial/api/Checksum.kt:19-35 | Damage confined to 16 consecutive bits, anywhere in body or checksum, passes only if nothing changed. |
| CrcDetection.OddFlipsAreDetected | library/src/main/kotlin/io/android/serial/api/Checksum.kt:19-35 | Any odd number of flipped bits, however scattered, fails the check. |
| CrcDivision.CrcIsRemainder | library/src/main/kotlin/io/android/serial/api/Checksum.kt:19-26 | For every data the sixteen bits sent are the remainder, over GF(2), of the data (least significant bit of each byte first) and sixteen zeros, with the first sixteen bits of that inverted, divided by x^16 + x^15 + x^2 + 1. |
| CrcDivision.CrcOfOneTwoThree | library/src/main/kotlin/io/android/serial/api/Checksum.kt:19-26 | The published vector: the checksum of 1, 2, 3 is 61 61 in hexadecimal. |
| CrcDivision.SumIsTotal | library/src/main/kotlin/io/android/serial/api/Checksum.kt:15-17 | Sum8 is the total of the bytes modulo 256. |
| CrcDivision.XorIsParity | library/src/main/kotlin/io/android/serial/api/Checksum.kt:11-13 | Each bit of Xor8 is set exactly when an odd number of bytes has it set. |
| Frames.SerialFrameParser.TakeTurn | library/src/main/kotlin/io/android/serial/api/SerialFrameParser.kt:49-62 | One turn of the loop, its four breaks, four errors and the frame, against the function for a turn; every continue shortens what is pending. |
| Frames.SerialFrameParser.OfferDetailed | library/src/main/kotlin/io/android/serial/api/SerialFrameParser.kt:44-66 | The loop ends, and frames, errors, lastErrors and pending are those of the whole drain of the clipped bytes. |
| Frames.SerialFrameParser.Reset | library/src/main/kotlin/io/android/serial/api/SerialFrameParser.kt:68 | Nothing pending and no errors afterwards. |
| Frames.FirstFrom | library/src/main/kotlin/io/android/serial/api/SerialFrameParser.kt:70 | The index found is the first at which the header occurs, and -1 means there is none. |
| FrameStreams.DrainIsIncremental | library/src/main/kotlin/io/android/serial/api/SerialFrameParser.kt:48-63 | Draining a stream equals draining a prefix and then what it kept with the rest. |
| FrameStreams.KeptIsShort | library/src/main/kotlin/io/android/serial/api/SerialFrameParser.kt:50-57 | If the length field fits a frame, what is kept after any offer is shorter than the largest frame. |
| FrameStreams.ChunkIndependence | library/src/main/kotlin/io/android/serial/api/SerialFrameParser.kt:44-66 | Every cutting of a stream into small enough chunks gives the frames, errors and final pending bytes of an unlimited parser given the whole stream at once. |
| FrameStreams.OffersPlaceFrames | library/src/main/kotlin/io/android/serial/api/SerialFrameParser.kt:44-66 | Over any offers, clipped or not, the frames are disjoint slices of the stream in order, each with header, declared size within bounds, and passing both tests. |
| FrameRoundTrip.AcceptedSizeIsDeclaredSize | library/src/main/kotlin/io/android/serial/api/SerialFrameParser.kt:53-57 | An accepted frame has the size its length field declares exactly when that field fits a signed Int; always for one to three bytes. |
| FrameRoundTrip.WrappedLengthIsAccepted | library/src/main/kotlin/io/android/serial/api/SerialFrameParser.kt:53-58 | A length field of FFFFFFFF is accepted as a four-byte frame that ends inside its own length field. |
| FrameRoundTrip.EveryFrameIsJudgedOnce | library/src/main/kotlin/io/android/serial/api/SerialFrameParser.kt:48-63 | Between noise in which no header starts early, every well-formed frame is judged exactly once, on its own bytes, in order. |
| FrameRoundTrip.FramesArriveThroughNoise | library/src/main/kotlin/io/android/serial/api/SerialFrameParser.kt:44-66 | Through noise, damage and any small-chunk delivery the intact frames arrive and only they do, with one error for each damaged one. |
| FrameRoundTrip.BuiltFramesArrive | library/src/main/kotlin/io/android/serial/api/SerialFrameParser.kt:44-78 | Frames built from any payloads, either byte order and either length convention, with footer or trailing checksum, come back exactly, without an error. |
| FrameRoundTrip.BuiltIsWellFramed | library/src/main/kotlin/io/android/serial/api/SerialFrameParser.kt:53-58 | The parser reads from a built frame the size it has, and the frame holds its payload. |
| FrameRoundTrip.TrailingChecksumDecides | library/src/main/kotlin/io/android/serial/api/SerialFrameParser.kt:61-78 | With a trailing checksum and no footer a frame passes exactly when its last bytes are the checksum of the others, and else is one mismatch. |
| FrameRoundTrip.FooterDecides | library/src/main/kotlin/io/android/serial/api/SerialFrameParser.kt:60 | With a footer and no checksum a frame passes exactly when it ends in the footer. |
| FrameRoundTrip.FooterAndTrailingChecksumCollide | library/src/main/kotlin/io/android/serial/api/SerialFrameParser.kt:60-78 | With both, of whatever sizes, a frame passes exactly when it is long enough and ends in the footer and in the checksum of the rest; so the shorter of the two must end the longer, and if they are equally long be it. |
| FrameRoundTrip.EmptyChecksumRejectsEverything | library/src/main/kotlin/io/android/serial/api/SerialFrameParser.kt:72-73 | With a checksum of size 0 no frame passes. |
| FrameRoundTrip.PlacedChecksumDecides | library/src/main/kotlin/io/android/serial/api/SerialFrameParser.kt:72-78 | With a checksum at a configured place and no footer a frame passes exactly when what is there is the checksum of everything around it. |
| FrameRoundTrip.MisplacedChecksumRejects | library/src/main/kotlin/io/android/serial/api/SerialFrameParser.kt:74-75 | A configured place that does not lie in the frame rejects it. |
| FrameRoundTrip.BurstCostsOneFrame | library/src/main/kotlin/io/android/serial/api/SerialFrameParser.kt:44-78 | A burst of at most 16 bits that spares header and length field turns a frame with CRC into exactly one checksum mismatch of the same extent. |
| FrameRoundTrip.LargerChunkCanLoseFrame | library/src/main/kotlin/io/android/serial/api/SerialFrameParser.kt:45 | One byte over the chunk bound, and the buffer limit drops a frame that a single offer would have yielded. |
| Resynchronisation.LittleEndianField | library/src/main/kotlin/io/android/serial/api/SerialFrameParser.kt:71 | What a length field of one to four bytes says, least significant byte first. |
| Resynchronisation.BigEndianField | library/src/main/kotlin/io/android/serial/api/SerialFrameParser.kt:71 | The same, most significant byte first. |
| Resynchronisation.SizeIsIntSize | library/src/main/kotlin/io/android/serial/api/SerialFrameParser.kt:54-55 | The size compared with the bounds is the length field, first byte most or least significant as configured, with or without header and field, as a signed Int. |
| Resynchronisation.FalseHeadersAreReported | library/src/main/kotlin/io/android/serial/api/SerialFrameParser.kt:56-57 | Headers with a size out of bounds, overlapping what follows or not, give one error each, InvalidLength exactly below the minimum and Oversized exactly above the maximum, and cost the parser nothing beyond the last of them. |
| Resynchronisation.EveryFrameIsFoundAgain | library/src/main/kotlin/io/android/serial/api/SerialFrameParser.kt:48-63 | Through noise with any number of such false headers, whose length fields may reach into the true header, every well-framed frame that starts no earlier than their end is judged exactly once, on its own bytes, in order. |
| Resynchronisation.FramesAreFoundInChunks | library/src/main/kotlin/io/android/serial/api/SerialFrameParser.kt:44-66 | The same however the stream is cut into small chunks. |
| Resynchronisation.FrameBehindFalseHeaderArrives | library/src/main/kotlin/io/android/serial/api/SerialFrameParser.kt:57-62 | A header, declared oversized by the header behind it, costs one error and not the frame behind it. |
| RingBuffers.RingBuffer.InitBuffer | library/src/main/jni/sercd.c:307-313 | Whatever memory held, the buffer is valid and empty afterwards. |
| RingBuffers.RingBuffer.BufferLength | library/src/main/jni/sercd.c:317-321 | The modular difference of the positions is the number of bytes waiting. |
| RingBuffers.RingBuffer.BufferRoomLeft | library/src/main/jni/sercd.c:324-329 | The room is 2047 less the bytes waiting. |
| RingBuffers.RingBuffer.AddToBuffer | library/src/main/jni/sercd.c:346-353 | Past its assertion: with room, appends one byte at the end of the FIFO, across the wrap too; into a full buffer, leaves it empty. |
| RingBuffers.AddedWithoutRoom | library/src/main/jni/sercd.c:346-353 | Bytes added one by one past the assertion, and more than fit, leave of all that waited and of themselves only those after the first too many. |
| RingBuffers.RingBuffer.GetFromBuffer | library/src/main/jni/sercd.c:356-362 | Takes the oldest byte of a nonempty buffer. |
| RingBuffers.RingBuffer.GetBufferString | library/src/main/jni/sercd.c:366-375 | What is offered for writing is a prefix of the FIFO, up to the end of the array, and empty only if nothing waits. |
| RingBuffers.RingBuffer.BufferPopBytes | library/src/main/jni/sercd.c:378-383 | Drops that many oldest bytes; with the minus one of a blocked write it puts a stale byte in front or empties a full buffer. |
| Ports.SerialPort.SetPortSpeed | library/src/main/jni/unix.c:492-568 | Both speeds become the requested one, or 9600 for one the program does not know; nothing else changes. |
| Ports.SerialPort.SetPortDataSize | library/src/main/jni/unix.c:327-356 | Only the character size changes; unknown sizes mean eight bits. |
| Ports.SerialPort.SetPortParity | library/src/main/jni/unix.c:359-385 | Only the parity bits change; unknown requests mean none. |
| Ports.SerialPort.SetPortStopSize | library/src/main/jni/unix.c:388-413 | Only the stop bit changes; anything but two means one. |
| Ports.SerialPort.SetPortFlowControl | library/src/main/jni/unix.c:416-491 | Flow-control settings or one of our lines change as asked, and requests not supported change nothing. |
| Ports.SerialPort.GetModemState | library/src/main/jni/unix.c:298-324 | The conditional additions spell the four lines and the four changes since the previous state as bits. |
| Ports.AddingClearBit | library/src/main/jni/unix.c:306-321 | Each addition meets a clear bit: it sets that bit, carries nowhere and stays within the byte. |
| ModemView.ViewIsLastPolledLines | library/src/main/jni/sercd.c:1634-1650 | After any polls under a fixed mask the client's view is the masked lines at the last poll exactly when it started right or was notified since; from ModemState 0 it always starts right. |
| ModemView.NoticeSaysWhatChanged | library/src/main/jni/sercd.c:1636-1644 | A poll notifies exactly when a client that was right would become wrong, and the delta bits say which masked lines differ from the last notified state. |
| ModemView.InStepAfterMaskChangeExactlyWhen | library/src/main/jni/sercd.c:899-905 | A client that was right stays right under a new mask exactly when the mask shows and hides only lines that are down in the remembered state. |
| ModemView.MaskedStateIsMaskedLines | library/src/main/jni/unix.c:298-324 | Whatever the previous state, masking out the delta bits leaves the masked lines. |
| Telnet.ReceiveKeepsValid | library/src/main/jni/sercd.c:472-611 | After any byte the command stays within its 255 bytes, a command that is no sub-negotiation in progress has two bytes, every other one is below its completion length, the inner escape state is never receiving, and what is handed over is complete. |
| Telnet.HandlingLeaves | library/src/main/jni/sercd.c:697-1098 | Handling a command never touches platform or modem state, and a sub-negotiation never touches the options. |
| TelnetStreams.EscapedDataArrives | library/src/main/jni/sercd.c:453-504 | Any byte string escaped for either mode reaches a receiver in that mode unchanged, both ends agreeing on the last byte, with no command begun. |
| TelnetStreams.StreamArrivesExactlyWhenItSurvives | library/src/main/jni/sercd.c:472-611 | In binary mode any sequence of doubled data, option commands, port commands and signatures comes out as put in, data and commands each in order, ending in the normal state, exactly when no port parameter is IAC and no signature exceeds 249 bytes. |
| TelnetStreams.StreamKeepsItsOrderExactlyWhen | library/src/main/jni/sercd.c:472-611 | Under the same condition, and no other, data bytes and commands also keep their places among each other: no byte overtakes a command nor a command a byte. |
| TelnetStreams.CommandsAreBrief | library/src/main/jni/sercd.c:478-607 | Until it comes back to normal the receiver delivers and handles nothing; a command other than a signature holds exactly the bytes since its IAC, at most nine. |
| TelnetStreams.CommandsFitBuffer | library/src/main/jni/sercd.c:112-116 | No command handed over is longer than the command array, whatever the stream. |
| TelnetStreams.RedirectAppend | library/src/main/jni/sercd.c:1566-1570 | Redirecting two runs of bytes one after the other is redirecting them joined: reads may be cut anywhere. |
| Commands.PlainByteArrives | library/src/main/jni/sercd.c:477-488 | Outside a command a byte is data for the device, but for IAC and, outside binary mode, a NUL right after a CR. |
| Commands.DoubledIacArrives | library/src/main/jni/sercd.c:479-496 | IAC twice is one byte of data and ends outside any command. |
| Commands.LastByteIsRemembered | library/src/main/jni/sercd.c:609-610 | The byte a NUL is judged by is the last one received, whatever it belonged to. |
| Commands.ControlChanges | library/src/main/jni/sercd.c:821-885 | SET-CONTROL over all 256 values, from its bytes on: 1 to 3 set both directions of flow control, 8, 9, 11 and 12 exactly the line asked for, 5 and 6 the break, and nothing else changes anything. |
| Commands.ControlAnswers | library/src/main/jni/sercd.c:821-885 | What SET-CONTROL is answered with, byte for byte: what the port says afterwards in the direction asked for, or the line or break asked for. |
| Commands.FlowSettingsReadBack | library/src/main/jni/unix.c:416-491 | None, XON/XOFF or hardware flow control once asked for is what both requests, sent after it, are answered with. |
| Commands.BreakReadsBack | library/src/main/jni/sercd.c:835-858 | A break set or taken back is what the next request for it is answered with. |
| Commands.SizeCommandsChange | library/src/main/jni/sercd.c:755-819 | SET-DATASIZE, SET-PARITY and SET-STOPSIZE over all values: the setting in the port, the nearest there is for values it has not; 0 changes nothing; nothing else changes. |
| Commands.SizeCommandsAnswer | library/src/main/jni/sercd.c:755-819 | Their answers, byte for byte: what the port reports afterwards. |
| Commands.SpeedCommandChanges | library/src/main/jni/unix.c:492-568 | SET-BAUDRATE with any four bytes: output and input speed become their value, most significant first, or 9600 if the program does not know it; 0 changes nothing; nothing else changes. |
| Commands.SpeedCommandAnswers | library/src/main/jni/sercd.c:660-678 | Its answer: four bytes, most significant first, of the speed the port reports afterwards, 0 if unknown, and the padding of a wider long. |
| Commands.MaskCommandsDo | library/src/main/jni/sercd.c:888-915 | The masks are kept, of the line-state mask only bit 16, and confirmed; a purge is confirmed. |
| Commands.FlowCommandsDo | library/src/main/jni/sercd.c:917-927 | FLOWCONTROL-SUSPEND turns the flow off, -RESUME turns it on; neither is answered nor changes anything else. |
| Commands.SignatureCommandsDo | library/src/main/jni/sercd.c:711-729 | An empty signature is answered with ours, another one, doubled as it must be, with nothing. |
| Commands.UnknownCommandsDoNothing | library/src/main/jni/sercd.c:929-935 | A sub-negotiation of any other kind changes and sends nothing. |
| Commands.OtherSubnegotiationsDoNothing | library/src/main/jni/sercd.c:946-962 | Nor does one of another option, or of this one while it is off in both directions. |
| Commands.OptionCommandsDo | library/src/main/jni/sercd.c:966-1098 | Every verb with every option, from its three bytes on: what becomes of the table, with options 0, 1, 3 and 44 supported, and the bytes it is answered with. |
| Replies.HandlingFitsBudget | library/src/main/jni/sercd.c:695-1098 | Handling any complete command in any state appends at most 516 bytes. |
| Replies.RepliesFitBudgets | library/src/main/jni/sercd.c:435-696 | Each sender keeps the budget declared beside it, for either width of long. |
| Replies.RedirectingFitsBudgets | library/src/main/jni/sercd.c:470-611 | Any bytes received cost at most one byte each towards the device and 516 towards the network. |
| Replies.InitialOffersExceedBudget | library/src/main/jni/sercd.c:614-642 | The budget macro for the initial offers is half of what they take. |
| Replies.ReplyIsCanonicalExactlyWhen | library/src/main/jni/sercd.c:681-693 | A one-byte reply has the form of RFC 2217 exactly when its value is not IAC and, outside binary mode, the last byte written was no CR or the value is LF. |
| Replies.SpeedReplyIsCanonicalExactlyWhen | library/src/main/jni/sercd.c:660-678 | The reply that carries the port's speed has the form of RFC 2217 exactly when long is four bytes wide and we send binary or wrote no CR last. |
| Replies.CommandsTouchOneSetting | library/src/main/jni/sercd.c:697-935 | A COM-port command changes no setting but its own and confirms that setting's new value and no other's. |
| Replies.LastConfirmationIsCurrent | library/src/main/jni/sercd.c:681-935 | In either mode, after any run of commands, passed-on device bytes, notifications and line changes: a client that reads RFC 2217 reads the confirmation of a setting last asked for, as what the port reports now, exactly when we sent binary or wrote no CR before it and, for a speed, long is four bytes wide, and then it is the last value it can read; if none was asked for, nothing was confirmed and the setting is as it was. |
| Replies.EchoedValueChangesNothing | library/src/main/jni/sercd.c:731-818 | Asking for exactly what was confirmed leaves every reported setting and flow control as it was. |
| Replies.RequestIsGrantedExactlyWhenSupported | library/src/main/jni/sercd.c:731-818 | A speed, data size, parity or stop size asked for is what the port then reports exactly when the port supports it; asking for 0 changes nothing. |
| Replies.FlowControlReadsBack | library/src/main/jni/unix.c:416-491 | None, XON/XOFF and hardware flow control read back in both directions once set; no other control request changes what either direction reports. |
| Replies.ConfirmationReadsExactlyWhen | library/src/main/jni/sercd.c:660-693 | In either mode the confirmation of any of the four settings, read as RFC 2217 lays it out, is the port's value exactly when we send binary or wrote no CR last and, for a speed, long is four bytes wide; otherwise nothing can be read from it. |
| Replies.SpeedReadsBack | library/src/main/jni/sercd.c:661-678 | The bytes sent for a speed are four that read back as it and, where long is eight bytes wide, four zeros more. |
| Replies.SpeedReplyReads | library/src/main/jni/sercd.c:660-678 | The parameters of a speed reply are those bytes, with a NUL before them after a CR outside binary mode: a reader content with the first four gets the speed, or a 256th of it. |
| Negotiation.OptionBytesAreAnswered | library/src/main/jni/sercd.c:940-1098 | The three bytes of an option command, in any state between commands and either mode, have exactly the table's effect and answer. |
| Negotiation.DataLeavesOptions | library/src/main/jni/sercd.c:472-611 | Data escaped in whatever mode, right or wrong, never touches the options, asks for no answer and ends outside any command. |
| Negotiation.LedgerBalances | library/src/main/jni/sercd.c:966-1098 | After any history: an option is on exactly when supported and last switched on; agreements sent are the offers and requests but for the one that answered our offer, refusals sent are the retractions, and an unsupported option is refused once per request. |
| Negotiation.OffersOnTheWire | library/src/main/jni/sercd.c:626-642 | The eighteen bytes sent first are the six offers the ledger starts from. |
| Convergence.NegotiationConverges | library/src/main/jni/sercd.c:966-1064 | Two endpoints over FIFO channels, any interleaving and any data: at most sixteen option commands are ever delivered, none is under way exactly when sixteen were, and then each end sent eight and options 0, 1, 3 and 44 are on in both directions at both ends. |
| Convergence.DeliveriesRunOut | library/src/main/jni/sercd.c:966-1064 | From any reachable state, once no data is added, deliveries in any order end after exactly the backlog and only with both channels empty. |
| ByteConvergence.BytesConverge | library/src/main/jni/sercd.c:939-1064 | Two endpoints whose bytes are read in pieces of any length, each writing any data in the mode it is in: besides the data at most 48 bytes are ever read, exactly 48 when and only when nothing is under way, and then options 0, 1, 3 and 44 are on in both directions at both ends. |
| Connections.EventBalances | library/src/main/jni/sercd.c:1484-1650 | Whatever is read or polled, what was accepted followed by what waits stays the offers and everything produced since. |
| Connections.DeviceStreamIsOfNetworkBytes | library/src/main/jni/sercd.c:1548-1571 | What goes to the device depends on the network's bytes alone, not on how reads were cut nor on anything read, polled or replied in between. |
| Connections.ClientDataReachesDevice | library/src/main/jni/sercd.c:1484-1571 | Once a client whose first byte found the parser outside any command turned binary mode on, what has reached the device or waits for it is at every moment a prefix of the data it sends, and all of it once that has been read, over any interleaving and any partial writes, as long as the account is kept. |
| Clients.ClientHearsExactlyWhen | library/src/main/jni/sercd.c:453-467 | A client of RFC 854, in the mode the server is in, hears at every moment every byte passed on from the device and every answer in its place and nothing else, exactly when every such byte is clear: sent in binary mode, LF or IAC, or after a CR to us exactly if after a CR to the client, and no NUL the client drops. |
| Clients.BinaryStreamIsHeard | library/src/main/jni/sercd.c:435-693 | Once we send binary and until a DONT, a client that has only the bytes makes of them every device byte and every answer, in order and nothing else. |
| Clients.DeviceDataReachesClient | library/src/main/jni/sercd.c:1484-1650 | As long as the account is kept, what network accepted and what waits for it is the six offers and what the server did, in order; a client hears the device's bytes and the answers in their places under that condition and no other. |
| Clients.ConnectionConfirms | library/src/main/jni/sercd.c:681-935 | Over a whole connection, whatever was read and polled, the last confirmation of a setting that can be read is what the port reports now. |
| Clients.OffersAreHeard | library/src/main/jni/sercd.c:627-642 | The first eighteen bytes are heard as the six offers. |
| Clients.NulIsTakenForData | library/src/main/jni/sercd.c:453-467 | Outside binary mode, after a modem mask of 13 was confirmed, a device byte comes to the client as a NUL and that byte. |
| Redirectors.Redirector.constructor | library/src/main/jni/sercd.c:84-150 | The statics as the program starts: nothing open, READY, the parser outside any command, masks, modem state and flags as declared, buffers not yet initialised. |
| Redirectors.Redirector.EscWriteChar | library/src/main/jni/sercd.c:453-467 | Appends the byte's escaped form for the present mode, past the assertion if there is no room, and remembers the byte. |
| Redirectors.Redirector.SendStr | library/src/main/jni/sercd.c:646-656 | With room for twice the text, appends its escaped form. |
| Redirectors.Redirector.SendSignature | library/src/main/jni/sercd.c:438-449 | Appends one whole signature reply. |
| Redirectors.Redirector.SendBaudRate | library/src/main/jni/sercd.c:660-678 | Within its budget, appends one whole speed reply. |
| Redirectors.Redirector.SendCPCByteCommand | library/src/main/jni/sercd.c:682-693 | With the room it takes, appends one whole reply; without, past the assertion, loses what waited. |
| Redirectors.Redirector.HandleCPCCommand | library/src/main/jni/sercd.c:697-935 | With room for 516 bytes, port, masks, flags and buffer become what the command makes of them. |
| Redirectors.Redirector.HandleOption | library/src/main/jni/sercd.c:966-1098 | WILL, WONT, DO and DONT change one table entry in place and send the answer, as the negotiation functions say. |
| Redirectors.Redirector.HandleIACCommand | library/src/main/jni/sercd.c:939-1098 | With room for 516 bytes, the whole state and the buffer follow the function on values, for every complete command. |
| Redirectors.Redirector.ReceiveChar | library/src/main/jni/sercd.c:477-607 | Escape states, command array and position follow the receiver function; a command is reported exactly when complete. |
| Redirectors.Redirector.EscRedirectChar | library/src/main/jni/sercd.c:472-611 | With 516 bytes of room one way and one the other, one byte changes state and both buffers as the function says, and no assertion fails. |
| Redirectors.Redirector.InitTelnetStateMachine | library/src/main/jni/sercd.c:255-267 | Every option is off with no offer open. |
| Redirectors.Redirector.SendTelnetInitialOptions | library/src/main/jni/sercd.c:627-642 | An empty buffer then holds exactly the six offers, and the table records them. |
| Redirectors.Redirector.DeviceIn | library/src/main/jni/sercd.c:1484-1505 | For every read result: stops exactly if it blocks and ssize_t is 32 bits wide, drops the client exactly on an error or no bytes, else appends all bytes read; room is never exceeded and the account stays balanced. |
| Redirectors.Redirector.DeviceBlocked | library/src/main/jni/sercd.c:1507-1525 | After a blocked write to the device what waits is shifted by a stale byte or gone, and the device's account is wrong. |
| Redirectors.Redirector.DeviceOut | library/src/main/jni/sercd.c:1507-1525 | The device gets the oldest bytes up to what it accepts or the end of the array, the client is dropped exactly if it fails or accepts none, and the account stays right exactly if the write was not blocked. |
| Redirectors.Redirector.NetworkBlocked | library/src/main/jni/sercd.c:1527-1545 | The same for a blocked write to the network. |
| Redirectors.Redirector.SocketOut | library/src/main/jni/sercd.c:1527-1545 | The same for the network, whose account begins with the initial offers. |
| Redirectors.Redirector.SocketIn | library/src/main/jni/sercd.c:1547-1571 | For every read result: stops exactly if it blocks and ssize_t is 32 bits wide, drops the client exactly on an error or no bytes, want of room included, else redirects all bytes read within both buffers' room. |
| Redirectors.Redirector.Accept | library/src/main/jni/sercd.c:1574-1600 | A client found with nothing open gets a fresh table and exactly the initial offers, CONNECTED reported; parser, masks and modem state stay where the last client left them. |
| Redirectors.Redirector.OpenDevice | library/src/main/jni/sercd.c:1602-1632 | Ends with everything open and PORT_OPENED reported, both buffers initialised, a balanced account that starts from the state found, or with nothing open and READY reported. |
| Redirectors.Redirector.PollModem | library/src/main/jni/sercd.c:1634-1650 | If the notification does not fit, stops the program where assertions are compiled in, and otherwise loses all that waited and breaks the account, which nothing else in a poll does; never with eight bytes of room; else state, notification and account follow the poll. |
| Redirectors.Redirector.Transfer | library/src/main/jni/sercd.c:1436-1571 | The four transfers of an iteration, in order, each only if asked for, reported and no earlier one ended it, leave state, buffers and account exactly where the function of the four says, for every read and write result. |
| Redirectors.Redirector.Iterate | library/src/main/jni/sercd.c:1425-1652 | Every iteration ends exactly where the function for one says, with assertions compiled in or not: with nothing open and READY reported, or everything open, PORT_OPENED reported and the account balanced or given up, or stopped; it returns stopped exactly when that function does. |
| Redirectors.Redirector.Run | library/src/main/jni/sercd.c:1416-1652 | The same after any number of iterations, with any events and results, across any number of connections; and while a connection's account is kept, what network and device accepted followed by what waits for them is exactly what they are due. |
| Outcomes.StopsExactlyWhen | library/src/main/jni/sercd.c:1484-1650 | An iteration stops the program exactly at a blocked device or socket read with a 32-bit ssize_t, or, where assertions are compiled in, at a poll whose notification exceeds the room left by then. |
| Outcomes.DropsExactlyWhen | library/src/main/jni/sercd.c:1484-1571 | An iteration drops its client exactly when a read or write it does fails or ends, or the socket is read when either buffer has run out of room since the loop head. |
| Outcomes.RoomHoldsWithoutCompetition | library/src/main/jni/sercd.c:1446-1557 | Without a device read or a blocked write in the same iteration the room checked at the loop head is still there at the socket read, which then fails only if it fails or ends by itself. |
| Outcomes.QuietPollsFit | library/src/main/jni/sercd.c:1439-1642 | A notification fits unless the same iteration read from the device or moved bytes to or from the network. |
| Outcomes.BlockedReadIsNothingWide | library/src/main/jni/sercd.c:1490-1503 | With a 64-bit ssize_t an iteration with a blocked read is the iteration in which that read was not reported. |
| Outcomes.OverrunOverfills | library/src/main/jni/sercd.c:1501-1503 | Whatever memory holds, 4294967295 bytes escaped exceed the buffer, so the 32-bit loop cannot come to its end. |
| Outcomes.SignatureSwallows | library/src/main/jni/sercd.c:519-557 | A receiver inside a signature takes any number of bytes other than IAC without filling either buffer, so after a blocked socket read the 32-bit loop need not meet an assertion. |
| Outcomes.IntactExactlyWhenNothingIsLost | library/src/main/jni/sercd.c:1484-1650 | Over a whole connection, with any events, its account is kept exactly when no write was blocked and no notification overfilled the buffer. |
| Outcomes.IntactUnlessSomethingIsLost | library/src/main/jni/sercd.c:1425-1652 | The same over any number of connections, one way. |
| Outcomes.IntactUnlessBlocked | library/src/main/jni/sercd.c:1507-1545 | With assertions compiled in, no account is broken over any iterations and connections unless a write was blocked. |
| Outcomes.WillBinaryIsHeardExactlyWhen | library/src/main/jni/sercd.c:1574-1600 | A new client's WILL TRANSMIT-BINARY turns binary mode on exactly when the last client left the parser outside any command. |
| Turns.TurnDoesExactly | library/src/main/jni/sercd.c:1436-1645 | An iteration that keeps its client reads and polls exactly this much: the device up to half the room and 512 bytes, with the flow on and room for two at the loop head; the network one byte for every 516 of room left, with room for 516 and one; a poll with the flow on and room for eight; and it writes what is accepted, up to the end of the array. |
| Turns.PollSays | library/src/main/jni/sercd.c:1635-1644 | A poll says something exactly when a line that the mask shows differs from what is remembered; then it remembers all lines and their changes and sends those the mask shows, byte for byte. |
| Turns.PeerDrivesItsLines | library/src/main/jni/unix.c:298-324 | Between iterations the four lines of the peer may change; DTR, RTS, settings and everything else stay. |
| Turns.BytesAndFlow | library/src/main/jni/sercd.c:917-927 | Over any bytes received nothing but a handled RESUME turns the flow on and nothing but a handled SUSPEND turns it off. |
| Turns.FlowIsOfNetworkBytes | library/src/main/jni/sercd.c:917-927 | Whether the flow is on depends on the network's bytes alone, not on how reads were cut or what happened in between. |
| Turns.FlowCommandIsHeard | library/src/main/jni/sercd.c:1547-1571 | The six bytes of either command, read in however many pieces outside any command with the option on, settle the flow. |
| Turns.ConnectionIsKept | library/src/main/jni/sercd.c:1425-1652 | Over any iterations and connections, server and parser are what the events of the present connection made of those it opened with. |
| Turns.SuspendedIsDeaf | library/src/main/jni/sercd.c:1436-1443 | With the flow off and until a RESUME is handled, over any iterations and connections, everything is as if select reported neither device input nor modem lines. |
| Turns.SuspendIsObeyed | library/src/main/jni/sercd.c:1436-1443 | So it is from the six bytes of SUSPEND on, in however many iterations they were read. |
| Turns.SuspendedOnlyAnswers | library/src/main/jni/sercd.c:1436-1650 | In that time a client that stays is sent nothing but the answers to its own commands, as many bytes as they have. |
| Turns.NewClientFinds | library/src/main/jni/sercd.c:1574-1632 | A new client finds eighteen bytes waiting, a fresh table and the port as it was opened; masks, flow, break, remembered lines and the parser are as the last client left them. |
| Turns.NobodyIsServed | library/src/main/jni/sercd.c:1574-1626 | Without a client nothing happens; one whose port cannot be opened leaves a fresh table and no more. |
| Turns.BlockedReadDoes | library/src/main/jni/sercd.c:1490-1503 | With the device asked for, a blocked read stops the program where a long has four bytes, and is nothing where it has eight. |
| Scenarios.FirstClientFinds | library/src/main/jni/sercd.c:97-137 | The first client of a program finds the flow on, every modem line shown, no line state shown, nothing remembered and the parser outside any command. |
| Scenarios.ServeFirstClient | library/src/main/jni/sercd.c:1416-1652 | For the first client of a new redirector, over any iterations and other clients' attempts, for as long as it is connected: its account is kept exactly when nothing was lost, and then what reached the device or waits for it is at every moment a prefix of the data it sends after turning binary mode on, and all of it once read. |
| Scenarios.ClientIsLostForWantOfRoom | library/src/main/jni/sercd.c:1547-1571 | Two device reads of 512 bytes and one of 502 drop a client that sent a byte, though nothing failed or ended. |
| Scenarios.PollStopsOrLoses | library/src/main/jni/sercd.c:1634-1650 | Device reads of IACs and a rising carrier, with nothing failed or blocked: the program stops where assertions are compiled in, and otherwise fewer than eight bytes are left of all the client was due. |
| Scenarios.BlockedReadStopsExactlyWhenNarrow | library/src/main/jni/sercd.c:1484-1505 | A first device read that would block stops a new program exactly where ssize_t is 32 bits wide, and elsewhere leaves the client connected. |
| Scenarios.SecondClientIsNotHeard | library/src/main/jni/sercd.c:1547-1600 | A first client sends IAC and leaves; the second one's WILL TRANSMIT-BINARY is read and the server does not receive binary. |
| Sessions.PromisesAlwaysHold | library/src/main/kotlin/io/android/serial/api/SerialSession.kt:105-166 | Under every interleaving, over channels opened one after another: writes follow acceptance order with a command's attempts side by side, at most maxRetries + 1 of them as an Int and none after a success; a response belongs to a successful write, perhaps on an earlier channel, and is accepted by its matcher; failures and timeouts had all their attempts, and a timeout without a success at least one; a chunk resolves at most one handle. |
| Sessions.CompletionsAreFinal | library/src/main/kotlin/io/android/serial/api/SerialSession.kt:114-163 | A completed handle keeps its result whatever reader, writer and timers do later. |
| Sessions.EveryCommandIsTried | library/src/main/kotlin/io/android/serial/api/SerialSession.kt:128-165 | Unless the oldest command is dropped or the writer cancelled, no accepted command is passed over: once the queue is empty and the writer idle a command has been tried exactly when its maxRetries is below 2147483647; one with that many has failed untried. |
| Sessions.GreatestRetriesNeverTry | library/src/main/kotlin/io/android/serial/api/SerialSession.kt:134-152 | A command with maxRetries 2147483647, accepted and taken by the writer, completes with Failed and no write. |
| Sessions.Rounds | library/src/main/kotlin/io/android/serial/api/SerialSession.kt:135 | The writer's repeat goes round maxRetries + 1 times, but not at all for the greatest Int that SerialCommand.kt accepts. |
| Sessions.StepKeeps | library/src/main/kotlin/io/android/serial/api/SerialSession.kt:105-166 | Every atomic step, a new channel included, keeps the invariant behind those promises. |
| SessionProgress.OfferAcceptsExactlyWhen | library/src/main/kotlin/io/android/serial/api/SerialSession.kt:71-78 | A command is accepted exactly while the channel is open and not full, and is then queued last. |
| SessionProgress.QueueFitsCapacity | library/src/main/kotlin/io/android/serial/api/SerialSession.kt:52 | Over any steps the queue holds no more than its capacity. |
| SessionProgress.OldestComesFirst | library/src/main/kotlin/io/android/serial/api/SerialSession.kt:129-134 | The writer takes the oldest command, and dropping one drops the oldest. |
| SessionProgress.WriterCanGoOn | library/src/main/kotlin/io/android/serial/api/SerialSession.kt:135-136 | The writer makes another attempt exactly while none has succeeded and no more than maxRetries were made, which must not be 2147483647, and else is done with the command. |
| SessionProgress.SettlingDoes | library/src/main/kotlin/io/android/serial/api/SerialSession.kt:149-163 | Then the command waits, with a timer, exactly if the last attempt succeeded and it has a matcher, and otherwise completes with what the last attempt came to. |
| SessionProgress.ReceiveMatchesExactlyWhen | library/src/main/kotlin/io/android/serial/api/SerialSession.kt:112-118 | The reader owes a chunk to a command exactly if that one is pending, has a matcher, and the matcher accepts its payload and the chunk. |
| SessionProgress.ResponseIsDelivered | library/src/main/kotlin/io/android/serial/api/SerialSession.kt:114-118 | A chunk once owed is the response, whatever others do between the reader's steps, unless the handle had completed or its timer gave up before the next of them; and nothing is pending then. |
| SessionProgress.AnswerCompletes | library/src/main/kotlin/io/android/serial/api/SerialSession.kt:112-118 | The same from the chunk on: one that the pending command's matcher accepts completes its handle. |
| SessionProgress.WaitingGoesOn | library/src/main/kotlin/io/android/serial/api/SerialSession.kt:153-162 | A command waits on through chunks it does not accept and whatever becomes of others, until another is put to wait, the pending field is cleared or the reader cancelled. |
| SessionProgress.WrittenCommandGetsItsResponse | library/src/main/kotlin/io/android/serial/api/SerialSession.kt:105-163 | From the successful write to the response: with its wait undisturbed, a command completes with the first chunk its matcher accepts. |
| SessionProgress.TimerOfAnotherDoesNothing | library/src/main/kotlin/io/android/serial/api/SerialSession.kt:158 | A timer that does not find its own command pending leaves everything alone. |
| SessionProgress.TimerClears | library/src/main/kotlin/io/android/serial/api/SerialSession.kt:156-159 | One that does clears the pending field at its next step, whatever happens before it. |
| SessionProgress.TimerGivesUp | library/src/main/kotlin/io/android/serial/api/SerialSession.kt:156-161 | After that it completes the handle as timed out, unless something else came first. |
| SessionProgress.MayCompleteExactlyWhen | library/src/main/kotlin/io/android/serial/api/SerialSession.kt:105-166 | At any moment of any run, over any channels, a handle that has not completed can still complete exactly if its command is queued for a writer at work, in hand, pending or matched, or its timer found it pending; a way to complete it is given, and otherwise no steps ever do. |
| SessionProgress.OverwrittenIsForsaken | library/src/main/kotlin/io/android/serial/api/SerialSession.kt:153-158 | A command put to wait takes the place of one that waits, whose handle then never completes unless its timer had already looked. |
| SessionWorkers.SerialSession.Send | library/src/main/kotlin/io/android/serial/api/SerialSession.kt:60-80 | Rejects with the error the session's state calls for, else queues the command, after dropping the oldest if so configured and full. |
| SessionWorkers.SerialSession.TryWrites | library/src/main/kotlin/io/android/serial/api/SerialSession.kt:134-148 | Makes attempts up to the first success or the last round, none at all if maxRetries + 1 wraps, and records exactly these. |
| SessionWorkers.SerialSession.ServeCommand | library/src/main/kotlin/io/android/serial/api/SerialSession.kt:129-165 | Takes the oldest command, tries it, and then either waits for its response or completes it with the last result, Failed if there was no attempt. |
| SessionWorkers.SerialSession.Interleave | library/src/main/kotlin/io/android/serial/api/SerialSession.kt:105-166 | The coroutines' methods called in any order, each when it can go on, leave the session exactly where the steps do, with every promise kept. |
| Reconnects.DelaysGrow | library/src/main/kotlin/io/android/serial/api/ReconnectPolicy.kt:12-23 | Over the reals every delay lies between the initial and the maximum one and none is shorter than the one before. |
| Reconnects.WaitingIsBounded | library/src/main/kotlin/io/android/serial/api/ReconnectPolicy.kt:12-23 | n attempts wait between n initial and n maximum delays in all. |
| Reconnects.DelaysAreGeometric | library/src/main/kotlin/io/android/serial/api/ReconnectPolicy.kt:19-23 | The delays start with the initial one and are multiplied from one to the next, cut to whole milliseconds, up to the maximum. |
| Reconnects.DefaultDelays | library/src/main/kotlin/io/android/serial/api/ReconnectPolicy.kt:6-11 | The default policy waits 500, 1000, 2000, 4000, 8000, 10000 and again 10000 milliseconds. |
| Reconnects.LoopMaySucceed | library/src/main/kotlin/io/android/serial/api/SerialSession.kt:168-208 | From a failure that finds the flag down, through any number of failed opens below maxAttempts, with the policy's delays: the next open that succeeds is reported and takes the flag down. |
| Reconnects.LoopMayExhaust | library/src/main/kotlin/io/android/serial/api/SerialSession.kt:168-208 | After maxAttempts failed opens exhaustion is reported and the flag is down. |
| Reconnects.NoAttemptAfterClose | library/src/main/kotlin/io/android/serial/api/SerialSession.kt:178-184 | A closed session, or a transport that cannot be closed, ends the loop without another attempt. |
| Reconnects.FailuresStartNothingWhile | library/src/main/kotlin/io/android/serial/api/SerialSession.kt:168-176 | A failure while the flag is up, with reconnecting disabled or after a close starts no loop. |
| Reconnects.ReconnectingIsSingleAndBounded | library/src/main/kotlin/io/android/serial/api/SerialSession.kt:168-208 | Under any interleaving of failures, loops and a close, at most one loop is at work; it waits the policy's delays, at most maxAttempts of them, opens no more often, and reports at most once: success after the open that succeeded, exhaustion after maxAttempts failed ones. |
| Reconnects.FlagFollowsLoops | library/src/main/kotlin/io/android/serial/api/SerialSession.kt:173-207 | Before a close the flag is up exactly while a loop is at work or about to start. |
| Reconnects.FlagMayOutliveLoops | library/src/main/kotlin/io/android/serial/api/SerialSession.kt:173-175 | A close between taking the flag and looking at terminal leaves the flag up with no loop. |
| Reconnects.FlagOutlivesLoopsExactlyWhen | library/src/main/kotlin/io/android/serial/api/SerialSession.kt:173-207 | Before and after a close, the flag is up with no loop at work exactly when a fail call that had won it looked at terminal after the close or a loop was cancelled before it began. |
| Reconnects.StrandedForGood | library/src/main/kotlin/io/android/serial/api/SerialSession.kt:173-207 | Once that has happened the flag stays up and no loop is ever at work again. |

## Left out

- Frames.SerialFrameParser.TakeTurn: does not model Int overflow of lengthOffset + lengthSize, of position + size or of a default buffer size; all of them need configured values near 2^31.
- Redirectors.Redirector.DeviceIn, Redirectors.Redirector.SocketIn: at a blocked read with a 32-bit ssize_t the model stops; it does not follow the loop through the memory behind the read buffer, nor say what of it reached a buffer before an assertion or the memory fault ended the program.
- Redirectors.Redirector.SendSignature, Redirectors.Redirector.SendBaudRate, Redirectors.Redirector.SendStr: stated with the room their callers are proved to leave them; only a notification is ever added without room.
- Clients.HearDone: the client is in the mode the server is in at each act; when it learns of a change of mode is not modelled.
- Redirectors.Redirector.Iterate: PortControlEnable, which only ever becomes what it starts as, is not a field.
- Redirectors.Redirector.LinesChange: the lines the peer drives change between iterations, not within one.
- Redirectors.Redirector.SendStr: also stands for the source's own loops over a read buffer and over the bytes of a speed, which do the same byte by byte.
- Sessions.Next: the old writer and reader are taken to have ended before a new channel's begin, while cancel only asks them to, and connect after a failed write asks nothing; each field access of a coroutine is one step; word tearing and stale caches of the unsynchronised fields are not modelled.
- SessionWorkers.SerialSession.TryWrites: "none after a success" is about the attempts' outcomes. A logger that throws after a successful transport write is caught as a failure (SerialSession.kt:140-146), so such an attempt counts as failed here and its bytes may be written again.
- Reconnects.Do: modelled on values, since a loop's attempt counter is local to its coroutine; the fields it shares are the flag and terminal. Floating-point rounding and overflow of the power are not modelled.
- Convergence.Next, ByteConvergence.Take: the two endpoints exchange option commands and data; COM-port commands between them are not added.
- FrameRoundTrip.Built: the repository has no frame builder; this one is the reference the round trip is stated against.
- Scheduling: what can still complete a handle is proved, not that the coroutines get to do it; nor is the Closed state modelled as final.
- The session's connect, disconnect and state events beyond what send, fail and reconnect read of them.
- inetd mode and other builds than Android's; the exit call from another thread; the Cisco compatibility flag, whose default is off.
- Break and purge: only their replies; DTR and RTS readback, which reports DSR and CTS by design.
- The log lines, and the copy of a received signature into one of them.
- Opening devices, sockets, select and its timing, JNI, lock files, SerialProxy.kt, ByteUtils.kt; ResponseMatcher.kt is an arbitrary predicate.
