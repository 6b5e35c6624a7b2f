# mirb host-based serial protocol, modelled in Dafny

This project models the host side of the serial protocol that the host-based mruby console
(`mirb-hostbased`) uses to talk to a microcontroller target:

- **Handshake.** The host polls with ENQ (0x05) until the target answers ACK (0x06). It makes at
  most 100 rounds. Target output seen while waiting is echoed to the console. If the port refuses
  the inquiry byte, the port is reopened and no inquiry is sent again.
- **Upload (`write_bytecode`).** The host sends a 3-byte header: mode byte 0x01, or 0x02 when
  verbose, then the length big-endian. It retries at most five times, flushing stale input first,
  until the target answers `'!'`. The payload then goes one byte at a time in groups of at most
  100 bytes. The target answers each group with `'#'`. A write the port asks to retry later
  (EAGAIN) is repeated without counting it.
- **Download (`read_result`).** The host echoes target output until a frame marker arrives: 0x01
  for a value, 0x02 for an exception. It reads the two length bytes and answers `'!'`. It then
  reads the payload in groups of at most 100 bytes, answering each group with `'#'`, into a fresh
  buffer that it NUL-terminates.
- **The `#file` / `#load` console directive.** The file name is trimmed. The file's lines are
  appended to the code buffer, skipping comment lines and checking the buffer's capacity first.
  Newlines, spaces and tabs are then cut from the end of the code.

The serial port is the class `SerialLink.Link`. Its fields are:

- `incoming`: what the next non-blocking reads will find, a byte or nothing;
- `outcomes`: what the next writes will do: accepted, would block, or refused;
- `trace`: everything the host has observably done so far, in order: bytes read, bytes sent,
  bytes echoed to the console, port reopened;
- `idlePolls`: how many polls found nothing.

The protocol routines are methods over a `Link`. Each is proved against a reference function of
the two scripts (`ByteReader.ReadOf`, `Handshake.HelloLoop`, `Transmitter.WriteBytecodeOf`,
`Receiver.ReadResultOf`, ...): the method's result, what it used up of `incoming` and `outcomes`,
and the record of what it did are exactly what that function computes from the old scripts.
Lemmas about these functions then state what the protocol does for a given target: a target that
answers as expected yields success, a silent target yields a timeout, and a refused write yields
a write error. Each method also states its new trace through a specification function of what
happened. Examples:

- `Chunking.Lockstep` is the complete group-and-acknowledge transfer of a payload;
- `Chunking.Partial` is that transfer cut short;
- `Handshake.HelloEvents` is the rounds of the handshake;
- `Receiver.ResultEvents` is a result frame's reception.

Lemmas project these traces onto the bytes sent and the bytes received. This is how the
protocol's promises are proved:

- the payload crosses the link exactly once, in order;
- the number of `'#'` acknowledgements is the number of groups;
- nothing but ENQ or header copies is sent before the payload;
- a target that behaves as the protocol expects yields success, and each way a target or port
  can misbehave yields the failure the source reports.

Modules, one per concern of `tools/mirb-hostbased/hostbased.c`:

| file | module | models |
|---|---|---|
| wire.dfy | `Wire` | bytes, control characters, the 3-byte header and the 16-bit length |
| link.dfy | `SerialLink` | the port: reads, writes, console echo, reopening; trace projections |
| reader.dfy | `ByteReader` | `read_target`, `read_flush`; outcome and fault kinds |
| chunking.dfy | `Chunking` | groups of 100 bytes with one `'#'` each, in either direction |
| handshake.dfy | `Handshake` | `wait_hello` |
| transmitter.dfy | `Transmitter` | `write_bytecode` |
| receiver.dfy | `Receiver` | `read_result` |
| filedirective.dfy | `FileDirective` | the `#file` / `#load` branch of `mirb_hostbased_command` |

The C return values 0 and -1 become `ByteReader.Status`: `Ok` or `Failed(fault)`. The fault kind
is named after the diagnostic the routine prints. `read_target` with a zero budget polls for
ever. On a link whose script has run out, this is the outcome `Forever` (`WaitsForever` for
`read_result`), because the C function never returns.

## Model

| member | source | states |
|---|---|---|
| Wire.ModeByte | tools/mirb-hostbased/hostbased.c:163 | the mode byte is a frame marker, and it is 0x02 exactly when the upload is verbose |
| Wire.EncodeHeader | tools/mirb-hostbased/hostbased.c:162-165 | the header is three bytes: a marker that is 0x02 exactly when verbose, then two bytes whose big-endian value is the length |
| Wire.DecodeLength | tools/mirb-hostbased/hostbased.c:126 | the decoded length of any two bytes fits the 16-bit range, at most 65535 |
| Wire.HeaderRoundTrip | tools/mirb-hostbased/hostbased.c:162-165 | decoding the length bytes of an encoded header gives back every length from 0 to 65535 |
| Wire.LengthRoundTrip | tools/mirb-hostbased/hostbased.c:126 | encoding a decoded length gives back the same two bytes, so the codec is a bijection on 16 bits |
| SerialLink.Link.Read | tools/mirb-hostbased/hostbased.c:33 | one non-blocking read consumes one scripted poll, records the byte if one came, and otherwise counts an idle poll |
| SerialLink.Link.Write | tools/mirb-hostbased/hostbased.c:183 | one write takes the next scripted outcome; only an accepted write puts its bytes on the trace |
| SerialLink.Link.Show | tools/mirb-hostbased/hostbased.c:85 | echoing a byte to the console appends exactly that echo and changes nothing on the port |
| SerialLink.Link.Reopen | tools/mirb-hostbased/hostbased.c:77 | reopening the port is one opaque event on the trace |
| SerialLink.EchoesProjection | tools/mirb-hostbased/hostbased.c:81-87 | echoing target bytes reads exactly those bytes and sends nothing to the target |
| ByteReader.ReadOf | tools/mirb-hostbased/hostbased.c:26-44 | the reference read: a byte ends it and uses one more poll; a positive budget never waits for ever and a zero budget never times out; waiting for ever happens only once the script is used up |
| ByteReader.ReadArrives | tools/mirb-hostbased/hostbased.c:32-33 | a byte waiting at the first poll is returned at once, whatever the budget |
| ByteReader.ReadSilent | tools/mirb-hostbased/hostbased.c:34-41 | on a silent target a positive budget times out and a zero budget waits for ever |
| ByteReader.ReadAfterGap | tools/mirb-hostbased/hostbased.c:34-41 | a byte that comes after t empty polls is read when the budget exceeds t, and the read times out after exactly `budget` polls otherwise |
| ByteReader.ReadGap | tools/mirb-hostbased/hostbased.c:34-41 | k empty polls spend k ticks of a positive budget, or time out when the budget is at most k; they spend nothing of a zero budget |
| ByteReader.ReadTarget | tools/mirb-hostbased/hostbased.c:26-44 | its result and the polls it used are the reference read's: it returns the first byte that arrives after polls that all found nothing; a positive budget t times out after exactly t failed polls and never waits for ever; budget 0 never times out; a byte waiting at the first poll is returned at once |
| ByteReader.FlushQuiet | tools/mirb-hostbased/hostbased.c:46-54 | a flush that finds nothing at its first poll discards nothing |
| ByteReader.ReadFlush | tools/mirb-hostbased/hostbased.c:46-54 | reads and discards every byte already waiting, up to and including the first poll that finds nothing, and sends nothing; the bytes discarded are the reference flush's |
| Chunking.ChunkCount | tools/mirb-hostbased/hostbased.c:180-201 | the number of groups of an n-byte payload is the ceiling of n/100 |
| Chunking.GroupSize | tools/mirb-hostbased/hostbased.c:182-193 | a group is 100 bytes unless it is the last one, which may be shorter but never empty |
| Chunking.LockstepProjection | tools/mirb-hostbased/hostbased.c:179-201 | a complete transfer carries exactly the payload, each byte once and in order, and carries ceil(len/100) `'#'` the other way |
| Chunking.PartialProjection | tools/mirb-hostbased/hostbased.c:179-194 | a transfer cut short has carried exactly the first d payload bytes, in order |
| Chunking.PartialIsPrefix | tools/mirb-hostbased/hostbased.c:179-201 | a transfer cut short agrees with the complete one up to where it stopped; after a whole group the complete one's next event is that group's `'#'` |
| Chunking.LockstepAppend | tools/mirb-hostbased/hostbased.c:180-201 | transferring whole groups and then the rest is the transfer of the whole payload |
| Chunking.GroupBoundaries | tools/mirb-hostbased/hostbased.c:182-193 | an empty payload takes no `'#'`, 99 and 100 bytes take one, 101 take two |
| Handshake.Listen | tools/mirb-hostbased/hostbased.c:81-87 | the reference listening loop never echoes ACK and uses a part of the script |
| Handshake.ListenReadsAck | tools/mirb-hostbased/hostbased.c:81-87 | output without ACK followed by ACK: the round echoes exactly that output and reads ACK |
| Handshake.ListenAfterGap | tools/mirb-hostbased/hostbased.c:81 | an ACK after fewer than 20 empty polls is read; after 20 the round ends without it |
| Handshake.ListenSilent | tools/mirb-hostbased/hostbased.c:81-87 | on a silent target a round ends without ACK and echoes nothing |
| Handshake.ListenForAck | tools/mirb-hostbased/hostbased.c:81-87 | echoes target bytes until ACK or a 20-tick timeout, exactly as the reference listening loop does on the script; ACK is never echoed |
| Handshake.HelloRound | tools/mirb-hostbased/hostbased.c:68-88 | one round writes ENQ only while inquiries are still sent, taking the next write outcome; it reopens the port and stops inquiring for good when that write is not accepted; then it listens as the reference round does on the script |
| Handshake.HelloLoop | tools/mirb-hostbased/hostbased.c:67-89 | the reference handshake makes at most 100 rounds, and at least one |
| Handshake.HelloRounds | tools/mirb-hostbased/hostbased.c:67-89 | the reference handshake stops at the first round that reads ACK, makes all 100 rounds when none does, and never echoes ACK |
| Handshake.HelloAnswered | tools/mirb-hostbased/hostbased.c:67-89 | a target that answers the first inquiry with ACK, after any output, ends the handshake after one round |
| Handshake.HelloSilent | tools/mirb-hostbased/hostbased.c:67-93 | on a silent target every one of the rounds is made, none reads ACK and nothing is echoed |
| Handshake.DisciplineSnoc | tools/mirb-hostbased/hostbased.c:65-79 | a round that inquires exactly when no earlier inquiry was refused keeps the `send_enq` discipline, and the flag drops exactly at a refusal |
| Handshake.QuietAfterRefusal | tools/mirb-hostbased/hostbased.c:65-79 | once an inquiry write has been refused, no later round writes ENQ |
| Handshake.HelloTransmits | tools/mirb-hostbased/hostbased.c:67-89 | the handshake sends nothing but ENQ bytes, one for each inquiry the port took |
| Handshake.WaitHello | tools/mirb-hostbased/hostbased.c:56-96 | its rounds and what it used of both scripts are the reference handshake's; it succeeds exactly when the last round read ACK, stops at the first such round, and fails with a sync error only after all 100 rounds; it keeps the inquiry discipline |
| Transmitter.HeaderLoop | tools/mirb-hostbased/hostbased.c:167-173 | the reference header phase makes at most 5 rounds and none once `'!'` has been read |
| Transmitter.HeaderRounds | tools/mirb-hostbased/hostbased.c:167-177 | the reference header phase reads `'!'` exactly when its last round did, and otherwise makes all its rounds |
| Transmitter.HeaderAnswered | tools/mirb-hostbased/hostbased.c:167-173 | a target that answers the first header with `'!'` ends the header phase after one round, whatever the port did with the header |
| Transmitter.HeaderUnanswered | tools/mirb-hostbased/hostbased.c:167-177 | on a silent target every header round times out and all of them are made |
| Transmitter.HeaderRound | tools/mirb-hostbased/hostbased.c:170-172 | a header round flushes stale input, writes the header whatever the result, and reads the answer with a 20-tick budget, exactly as the reference round does on both scripts; it never waits for ever |
| Transmitter.SendHeader | tools/mirb-hostbased/hostbased.c:167-173 | its rounds and the byte it read last are the reference header phase's on both scripts: at most 5 rounds, stopping at the first that reads `'!'`; when none does, all 5 were made |
| Transmitter.AttemptTransmits | tools/mirb-hostbased/hostbased.c:170-172 | a header round sends the whole header if the port takes it, and nothing else |
| Transmitter.HeaderTransmits | tools/mirb-hostbased/hostbased.c:167-177 | the header phase sends nothing but whole copies of the header, one per write the port took, so no payload byte goes before a `'!'` |
| Transmitter.GroupWrites | tools/mirb-hostbased/hostbased.c:182-194 | the reference writes of a group succeed exactly with all of its bytes counted, and fail with fewer |
| Transmitter.GroupWritesUse | tools/mirb-hostbased/hostbased.c:182-188 | a group's writes use up a prefix of the write outcomes and fail exactly when that prefix holds a refusal |
| Transmitter.GroupWritesAccepted | tools/mirb-hostbased/hostbased.c:182-194 | once the write script is used up every write is accepted, and a group sends all of its bytes |
| Transmitter.GroupRefused | tools/mirb-hostbased/hostbased.c:185-187 | a refused first write ends the group at once, with nothing sent and nothing read |
| Transmitter.GroupUnanswered | tools/mirb-hostbased/hostbased.c:195-199 | a group sent in full to a silent target fails on its acknowledgement |
| Transmitter.SendGroup | tools/mirb-hostbased/hostbased.c:181-194 | writes the next group's bytes in order, repeating a would-block write without advancing; its writes are the reference group writes on the outcomes: a refused write stops it, and it succeeds exactly when the whole group went |
| Transmitter.UploadGroup | tools/mirb-hostbased/hostbased.c:180-200 | one group and its acknowledgement extend the lockstep transfer by exactly that group, as the reference group does on both scripts; a refused write or a missing or wrong acknowledgement ends the upload at that point |
| Transmitter.PayloadAcked | tools/mirb-hostbased/hostbased.c:179-201 | a target with a `'#'` for every group, on a port that takes every write, lets the payload phase succeed |
| Transmitter.PayloadRefused | tools/mirb-hostbased/hostbased.c:183-187 | a payload phase whose first write is refused fails at once with no byte sent |
| Transmitter.PayloadUnanswered | tools/mirb-hostbased/hostbased.c:195-199 | a silent target fails the payload phase after its first group, on the missing `'#'` |
| Transmitter.SendPayload | tools/mirb-hostbased/hostbased.c:179-201 | its outcome is the reference payload phase's on both scripts: a complete lockstep transfer, a transfer cut short by a refused write, or one cut short by a bad acknowledgement; a port that refuses nothing never gives a write error |
| Transmitter.UploadTransmits | tools/mirb-hostbased/hostbased.c:179-204 | on success the payload was sent exactly once, in order, and ceil(len/100) `'#'` were read; on failure only a prefix of the payload was sent |
| Transmitter.UploadPrefix | tools/mirb-hostbased/hostbased.c:179-201 | a payload phase cut short by a write error is a prefix of the complete transfer |
| Transmitter.WriteBytecodeOf | tools/mirb-hostbased/hostbased.c:157-206 | the reference `write_bytecode` sends no payload byte when the header phase fails |
| Transmitter.BytecodeUnanswered | tools/mirb-hostbased/hostbased.c:167-177 | a silent target never answers the header: all 5 rounds time out and the upload fails before the payload |
| Transmitter.SilentAfterHeader | tools/mirb-hostbased/hostbased.c:195-199 | a target that answers `'!'` and then falls silent fails a non-empty upload on the first `'#'`, after one group |
| Transmitter.RefusedAfterHeader | tools/mirb-hostbased/hostbased.c:183-187 | a port that refuses the first payload byte fails the upload with no payload byte sent |
| Transmitter.WriteBytecode | tools/mirb-hostbased/hostbased.c:157-206 | its outcome is the reference `write_bytecode`'s on both scripts; it fails with no payload sent after 5 header rounds without `'!'`; otherwise the header phase is followed by the payload phase and its outcome; a target answering `'!'` and every `'#'` yields success with one header copy sent |
| Receiver.AwaitOf | tools/mirb-hostbased/hostbased.c:104-111 | the reference wait for a marker stops only at 0x01 or 0x02, echoes only bytes that are neither, and waits for ever once the script is used up |
| Receiver.AwaitEchoes | tools/mirb-hostbased/hostbased.c:104-111 | output holding no marker, then a marker: the wait echoes exactly that output, unchanged, and stops at the marker |
| Receiver.AwaitPatient | tools/mirb-hostbased/hostbased.c:105 | however many polls find nothing before the marker, the wait does not give up |
| Receiver.AwaitSilent | tools/mirb-hostbased/hostbased.c:104-106 | on a silent target the wait never ends |
| Receiver.AwaitMarker | tools/mirb-hostbased/hostbased.c:104-111 | echoes every byte before the first 0x01 or 0x02 to the console, unchanged, and stops at that marker, exactly as the reference wait does on the script; it waits for ever only on a silent target |
| Receiver.LengthOf | tools/mirb-hostbased/hostbased.c:115-120 | the reference length read succeeds exactly when both bytes came within their budgets |
| Receiver.LengthArrives | tools/mirb-hostbased/hostbased.c:115-120 | two bytes waiting are the two length bytes, high first |
| Receiver.LengthSilent | tools/mirb-hostbased/hostbased.c:117-120 | a target silent after the marker, or after one length byte, gives a read timeout |
| Receiver.LengthAfterGap | tools/mirb-hostbased/hostbased.c:117-118 | a length byte after fewer than 20 empty polls is read; after 20 the read fails |
| Receiver.ReadLength | tools/mirb-hostbased/hostbased.c:115-120 | reads the two length bytes with a 20-tick budget each, exactly as the reference length read does; a timeout on either is a read timeout |
| Receiver.AnswerOf | tools/mirb-hostbased/hostbased.c:115-124 | the reference length read and answer fails with a read timeout exactly when a length byte is missing, and succeeds exactly when both came and the port took the `'!'` |
| Receiver.AnswerHeader | tools/mirb-hostbased/hostbased.c:115-124 | reads the length and writes `'!'` exactly as the reference does on both scripts; a `'!'` the port does not take is a write error |
| Receiver.FetchOf | tools/mirb-hostbased/hostbased.c:132-139 | the reference group read succeeds exactly when every byte of the group came |
| Receiver.FetchDelivers | tools/mirb-hostbased/hostbased.c:132-139 | a target sending at least a group's worth of bytes fills the group with the first of them |
| Receiver.FetchSilent | tools/mirb-hostbased/hostbased.c:133-134 | on a silent target a group read fails with nothing read |
| Receiver.ReceiveGroup | tools/mirb-hostbased/hostbased.c:132-139 | stores the next group's bytes in the buffer as they arrive, leaves earlier bytes alone, and reads exactly what the reference group read does on the script: it succeeds exactly when the whole group came, and a timeout ends it |
| Receiver.DownloadGroupOf | tools/mirb-hostbased/hostbased.c:131-144 | the reference group reads and then writes `'#'`: a missing byte is a read timeout, and the write script is touched only once the group came |
| Receiver.GroupAnswered | tools/mirb-hostbased/hostbased.c:131-144 | a group whose bytes all come is answered with `'#'`, and a `'#'` the port does not take is a write error |
| Receiver.GroupCut | tools/mirb-hostbased/hostbased.c:133-134 | on a silent target a group fails with a read timeout before any `'#'` |
| Receiver.DownloadGroup | tools/mirb-hostbased/hostbased.c:131-144 | one group and its `'#'` extend the lockstep transfer by exactly that group, as the reference group does on both scripts; a timeout or a refused `'#'` ends the download at that point |
| Receiver.DownloadLoop | tools/mirb-hostbased/hostbased.c:128-145 | the reference payload phase stores exactly the announced length on success and stops in a group it started on failure |
| Receiver.DownloadSilent | tools/mirb-hostbased/hostbased.c:133-134 | a silent target fails the payload phase on its first byte |
| Receiver.DownloadRefused | tools/mirb-hostbased/hostbased.c:142-143 | a port that does not take the first group's `'#'` fails the payload phase with that group stored |
| Receiver.DownloadDelivers | tools/mirb-hostbased/hostbased.c:128-145 | a target that sends the whole payload lets the payload phase store exactly that payload |
| Receiver.ReceivePayload | tools/mirb-hostbased/hostbased.c:128-145 | its outcome is the reference payload phase's on both scripts; the buffer's start holds exactly the bytes received; the phase ends as a complete transfer or is cut short by a timeout or a refused `'#'` |
| Receiver.FrameHeaderOf | tools/mirb-hostbased/hostbased.c:98-126 | the reference first half sets the exception flag exactly when the marker is 0x02, fails with a read timeout exactly when a length byte is missing, and on success announces the decoded big-endian length |
| Receiver.HeaderAnswered | tools/mirb-hostbased/hostbased.c:104-126 | output holding no marker and then an encoded header: the output is echoed and the header's length and exception flag are read back |
| Receiver.ReadFrameHeader | tools/mirb-hostbased/hostbased.c:98-126 | does exactly what the reference first half does on both scripts: on success the marker came after output holding no marker, both length bytes were read, `'!'` was sent, and the length is the decoded big-endian value; the exception flag is set exactly when the marker is 0x02 |
| Receiver.HeadProjection | tools/mirb-hostbased/hostbased.c:104-120 | before the `'!'` the host has only read: the echoed output, the marker and the length bytes |
| Receiver.DownloadProjection | tools/mirb-hostbased/hostbased.c:131-145 | the payload phase reads exactly the bytes it stores; a complete one sends one `'#'` per group |
| Receiver.ResultProjection | tools/mirb-hostbased/hostbased.c:115-147 | once `'!'` was sent, the host has read the output, marker, length and payload bytes in that order; on success it sent exactly one `'!'` and then ceil(len/100) `'#'` |
| Receiver.ReadResultOf | tools/mirb-hostbased/hostbased.c:98-155 | the reference `read_result` on success has read exactly the announced number of payload bytes |
| Receiver.ResultSilent | tools/mirb-hostbased/hostbased.c:104-106 | on a silent target `read_result` waits for ever, having read nothing |
| Receiver.ResultLengthCut | tools/mirb-hostbased/hostbased.c:115-120 | a target that falls silent after the marker or after one length byte fails the read with a timeout, before any `'!'` |
| Receiver.ResultRefused | tools/mirb-hostbased/hostbased.c:122-124 | a `'!'` the port does not take fails the read with a write error, and no payload byte is read |
| Receiver.ResultPayloadCut | tools/mirb-hostbased/hostbased.c:131-134 | a target silent after announcing a non-empty payload fails the read with a timeout on the first payload byte |
| Receiver.ResultDelivers | tools/mirb-hostbased/hostbased.c:98-147 | output holding no marker and then a well-formed frame yields that output echoed, the frame's exception flag and its payload |
| Receiver.ReadResult | tools/mirb-hostbased/hostbased.c:98-155 | does exactly what the reference `read_result` does on both scripts; fails only with a read timeout or a write error, or waits for ever on a silent target; on success the fresh buffer holds the payload in order with NUL at index len |
| FileDirective.TrimFilename | tools/mirb-hostbased/hostbased.c:233-242 | the name left is the argument with spaces, tabs and quotes trimmed from both ends: only such characters lie outside it and neither end of it is one |
| FileDirective.TrimNameIdempotent | tools/mirb-hostbased/hostbased.c:236-242 | trimming a trimmed name changes nothing |
| FileDirective.ClassifyLineAsWritten | tools/mirb-hostbased/hostbased.c:251-266 | the comment test as written counts a line as a comment exactly when its first character is `'#'` |
| FileDirective.ClassifyLine | tools/mirb-hostbased/hostbased.c:251-266 | the intended comment test: a line is a comment exactly when its first character after spaces and tabs is `'#'` |
| FileDirective.IndentedCommentKept | tools/mirb-hostbased/hostbased.c:255-262 | an indented comment line is a comment by the intended test but not by the test as written |
| FileDirective.Classify | tools/mirb-hostbased/hostbased.c:251-266 | the comment test of the reading loop under either rule: the first-column test as written, or the intended one |
| FileDirective.LoadLines | tools/mirb-hostbased/hostbased.c:250-274 | appends the file's non-comment lines in order under the given comment test; it succeeds exactly when all of them fit the buffer with its NUL; otherwise it stops at the first line that does not fit, and the buffer never overflows |
| FileDirective.LoadOverflows | tools/mirb-hostbased/hostbased.c:267-271 | a kept line that does not fit makes the whole load too large as well |
| FileDirective.KeptPrefix | tools/mirb-hostbased/hostbased.c:267-273 | what a load cut short has appended is a prefix of what the whole load appends |
| FileDirective.IndentedCommentLoaded | tools/mirb-hostbased/hostbased.c:251-273 | the line `"  # note\n"` is appended by the load as written and skipped by the intended one |
| FileDirective.StripTrailing | tools/mirb-hostbased/hostbased.c:278-285 | the stripped code is a non-empty prefix of the code that ends in neither a newline, a space nor a tab, and everything cut was such a character |
| FileDirective.StripUnique | tools/mirb-hostbased/hostbased.c:278-285 | only one prefix has that property, so the stripping is determined by the code alone |
| FileDirective.FileCommand | tools/mirb-hostbased/hostbased.c:231-285 | other lines pass through untouched; a missing file leaves the code as it was; a file that fits is loaded and its end stripped; one that does not fit stops at the first kept line that does not fit, with the lines before it appended; the buffer never overflows |

## Left out

- Time: `usleep` is not modelled. A read budget counts failed polls, about 10 ms each in the
  source. Bytes arrive as scripted polls, not in real time.
- Console and diagnostics: `printf` and `perror` text are left out. The fault kind in `Status`
  names which diagnostic would be printed. Console echo is the `Shown` event.
- Reopening the port (`mirb_reconnect`, with its `open`, termios set-up and `tcflush`) is the
  opaque event `Reconnected`. The model does not cover a reopen that fails, nor a reopened port
  changing what the target sends.
- Handshake.HelloRound: the port is reopened exactly when the ENQ write is not accepted. The
  source tests `errno` even after a write that succeeded, so a stale EAGAIN left by an earlier
  call would also trigger a reopen. `errno` is not part of this model.
- SerialLink.Link.Write: a write takes all of its bytes or none. Partial writes of the 3-byte
  header, whose result the source ignores, are not modelled.
- Receiver.ReadResult: the buffer is specified only on success. On a failure in the payload
  phase the source leaves the partly filled buffer in `*result_str` without a NUL. Freeing it is
  the caller's concern, and the model does not state its contents then.
- The read error after `read_target(fd, &c, 0)` in `read_result` cannot happen: a zero budget
  returns only once a byte arrives. On a silent target the model reports `WaitsForever` instead.
- Transmitter.SendGroup: once the write script is used up every write is accepted, so a port
  that answers EAGAIN for ever cannot be expressed. On such a port the source's loop at
  hostbased.c:182-184 spins for ever without sleeping; the model has no outcome for that. The same
  holds for Transmitter.WriteBytecode, which calls it.
- Transmitter.WriteBytecode: the result of writing the header is ignored, as in the source; a
  refused header write shows only in the trace (no header bytes sent) and in the answer that
  then does not come.
- File I/O: `fopen`, `fgets` and `fclose` are a map from file names to the lines `fgets` would
  return. A line longer than 1023 characters would come back in pieces; the map holds those
  pieces. An unreadable file is a name missing from the map.
- Undefined behaviour in the source becomes preconditions:
  - a file name of nothing but blanks and quotes, which makes the trimming loop read before the
    string (`FileDirective.TrimFilename`);
  - code that is empty or all blanks after loading, which makes the stripping loop read before
    the buffer (`FileDirective.StripTrailing`);
  - a payload longer than 65535 bytes, which the 16-bit header and counters cannot describe
    (`Transmitter.WriteBytecode`).
- FileDirective.FileCommand and FileDirective.LoadLines take the comment test as a parameter:
  `FirstColumn` is the source's test as written, `AfterIndent` the intended one (see Findings).
  Every property they state holds under both.
- The buffers the source trims in place (`filename`, `ruby_code`) are values here. The name is
  the slice `arg[lo..hi]` the two trimming loops leave, and the code is a `string` the methods
  return. The `ruby_code` buffer's capacity is `maxLength`.
- Out of scope of this model: `#reconnect`, view mode with its SIGINT handler,
  `remote_eval` (it calls into mruby to dump the bytecode) and `init_host_based`.
  `tools/mirb-hostbased/hostbased.h` holds only declarations.
- Ghost parameters such as `exception` and `payload` of `Receiver.ReadResult` only name the frame
  a cooperating target sends, for the success postconditions. They do not drive the code.

## Findings

| source | as written | input that shows it | evidently intended | confidence | as-written member | corrected member |
|---|---|---|---|---|---|---|
| tools/mirb-hostbased/hostbased.c:261 | `c++` increments the character held in `c` (a space becomes `'!'`, a tab becomes a newline) instead of stepping to the next character of the line, so only a `'#'` in the first column marks a comment | the file line `"  # note\n"` is appended to the code instead of being skipped | step over leading spaces and tabs, then treat the line as a comment when the next character is `'#'` | high; not executed | FileDirective.ClassifyLineAsWritten | FileDirective.ClassifyLine |
