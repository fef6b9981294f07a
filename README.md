# Shepard test stand data collection, modelled in Dafny

The Shepard test stand is a rocket-motor test stand. A microcontroller
measures thrust, temperature and a time stamp and streams them over a serial
line to a Java data collection system. This project models the Java side's
sequential logic and proves properties of it:

- **The serial frame decoder** (`ShepardSerialEventListener`), in both
  versions. A byte stream arrives in chunks with arbitrary boundaries.
  A control byte (`0xFF` thrust, `0xFE` temperature, `0xFD` time stamp)
  selects a big-endian payload. A payload cut off by the end of a chunk is
  carried over to the next chunk. When all three fields of the record are
  set, it is handed on and cleared.
  - The ShepardDCS version reads a 4-byte time stamp and clears unknown
    codes (`serial_decoder.dfy`).
  - The trunk version reads a 2-byte signed short for every field and never
    clears an unknown non-zero code (`trunk_serial_decoder.dfy`).
  - `frames.dfy` states the decoder's frame format and proves what the
    ShepardDCS decoder makes of well-formed frames.
  - `intended_decoder.dfy` is a reference decoder whose output does not
    depend on where the chunks break. It serves as the corrected half of two
    findings.
- **The record** `ShepardData` (`shepard_data.dfy`): the sentinel "unset"
  values, `isSet`, `clear`, `toString` and the parsing constructor.
- **The serial collection server** `CollectionServer` (`collection_server.dfy`):
  - the pairwise argument parser;
  - the choice of candidate ports;
  - the port discovery loop of `PortDetector.run`, over a script of probe
    outcomes;
  - the one-byte acknowledgement detector;
  - the status setters.
- **The TCP front** `TcpCollectionServer`, in both versions (`tcp_server.dfy`,
  `trunk_tcp_server.dfy`):
  - the `-tcpport` scan;
  - the client thread, as a function of a script of client events;
  - the status push;
  - `closeClientConnection`;
  - writing records to the client.
- **The trunk data collection panel** (`collection_panel.dfy`): the CSV file
  name, `addLineToCSV`, and the connect/record/clear buttons and data handling
  as a state machine.
- **The preferences panel** (`preferences_panel.dfy`): the save-location
  separator and the listener fan-out.

Shared Java behaviour is in `java_lang.dfy`:

- `Integer.parseInt` and `String.valueOf(long)`;
- `String.split`, `trim` and the literal behaviour of `replaceAll` on the
  pattern in use;
- `ByteBuffer.getShort` and `getInt`.

`serial_link.dfy` holds the serial port's events and command bytes, and
`wrappers.dfy` holds `Option`.

Each mutable Java object is a Dafny `class` whose methods are proved against a
specification function over the object's state. The properties are proved
about those functions. Thrust and temperature are kept symbolic
(`ThrustOf(raw)`, `TempOf(raw)`, `Float.MIN_VALUE` as `MinValue`), so the raw
integers, the sentinels and the time field are exact.

An event on the shared serial port is handed to every listener in turn. A
listener's `handleData` is abstract; here it is the sequence of records a
call to `SerialEvent` returns.

Where a doc comment and the code disagree, the code is modelled, and the
discrepancy is listed under "## Findings". Two examples are the `listen`
doc against `getPortNames`, and the `getFileName` doc against
`replaceAll`.

## Model

| member | source | states |
|---|---|---|
| Telemetry.ShepardData.constructor | trunk/ShepardDCS/ShepardDCS_Java/src/org/mach30/shepard_ts/ShepardData.java:10-13 | a new record holds the three sentinels and is not set |
| Telemetry.ShepardData.FromString | trunk/ShepardDCS/ShepardDCS_Java/src/org/mach30/shepard_ts/ShepardData.java:15-26 | the constructor fails exactly when the text does not parse; otherwise the record holds the parsed fields |
| Telemetry.ParseSample | trunk/ShepardDCS/ShepardDCS_Java/src/org/mach30/shepard_ts/ShepardData.java:17-25 | a record exactly when there are three comma-separated parts, part 0 parses as an int and parts 1 and 2 as floats; then part 0 is the time, part 1 the thrust and part 2 the temperature |
| Telemetry.ShepardData.Clear | trunk/ShepardDCS/ShepardDCS_Java/src/org/mach30/shepard_ts/ShepardData.java:33-38 | after clear all fields hold their sentinels and the record is not set |
| Telemetry.RenderFields | trunk/ShepardDCS/ShepardDCS_Java/src/org/mach30/shepard_ts/ShepardData.java:40-44 | toString splits back into time, thrust and temperature, in that order |
| Telemetry.ParseRender | trunk/ShepardDCS/ShepardDCS_Java/src/org/mach30/shepard_ts/ShepardData.java:15-44 | parsing the text of a record with an int time gives the record back |
| Telemetry.ParseRenderWideTime | trunk/ShepardDCS/ShepardDCS_Java/src/org/mach30/shepard_ts/ShepardData.java:23 | the text of a record whose long time does not fit an int does not parse |
| JavaLang.ParseIntOfLongToString | trunk/ShepardDCS/ShepardDCS_Java/src/org/mach30/shepard_ts/ShepardData.java:23 | parseInt of a long's decimal text gives the long back exactly when it fits an int |
| JavaLang.DigitsRoundTrip | trunk/ShepardDCS/ShepardDCS_Java/src/org/mach30/shepard_ts/ShepardData.java:23 | the decimal digits of a number read back to the number |
| JavaLang.SplitJoined | trunk/ShepardDCS/ShepardDCS_Java/src/org/mach30/shepard_ts/ShepardData.java:17 | split on ',' of three comma-free parts joined by commas gives the three parts |
| JavaLang.GetShort | ShepardDCS/ShepardDCS_Java/src/org/mach30/shepard_ts/server/ShepardSerialEventListener.java:180 | getShort is the big-endian value of two bytes wrapped to a signed 16-bit int |
| JavaLang.GetInt | ShepardDCS/ShepardDCS_Java/src/org/mach30/shepard_ts/server/ShepardSerialEventListener.java:209 | getInt is an int, the big-endian value of four bytes or that value less 2^32 |
| JavaLang.Low16GetShort | ShepardDCS/ShepardDCS_Java/src/org/mach30/shepard_ts/server/ShepardSerialEventListener.java:196 | masking a signed short with 0xFFFF gives the unsigned big-endian value |
| JavaLang.ReplaceAllWithoutMatch | trunk/ShepardDCS/ShepardDCS_Java/src/org/mach30/shepard_ts/client/ShepardDataCollectionPanel.java:252 | replaceAll leaves a string without an occurrence of the pattern unchanged |
| JavaLang.ReplaceAllRemovesEvery | trunk/ShepardDCS/ShepardDCS_Java/src/org/mach30/shepard_ts/client/ShepardDataCollectionPanel.java:252 | after replaceAll with a replacement sharing no character with the pattern, no occurrence remains |
| SerialDecoder.BytesRead | ShepardDCS/ShepardDCS_Java/src/org/mach30/shepard_ts/server/ShepardSerialEventListener.java:149-168 | n bytes are read exactly when n remain; otherwise every remaining byte goes to the carry-over and leftoverBytes is the count read, -1 at end of stream |
| SerialDecoder.SignedShortRead | ShepardDCS/ShepardDCS_Java/src/org/mach30/shepard_ts/server/ShepardSerialEventListener.java:172-189 | a complete read gives getShort and clears the code; a short one gives Integer.MIN_VALUE and keeps the code |
| SerialDecoder.UnsignedShortRead | ShepardDCS/ShepardDCS_Java/src/org/mach30/shepard_ts/server/ShepardSerialEventListener.java:193-197 | a complete read gives the masked short; a deferred one gives 0, the masked sentinel |
| SerialDecoder.UnsignedIntegerRead | ShepardDCS/ShepardDCS_Java/src/org/mach30/shepard_ts/server/ShepardSerialEventListener.java:201-218 | a complete read gives getInt, whose mask changes nothing, and clears the code; a short one gives Integer.MIN_VALUE |
| SerialDecoder.Dispatch | ShepardDCS/ShepardDCS_Java/src/org/mach30/shepard_ts/server/ShepardSerialEventListener.java:94-121 | the switch leaves a code that is 0 or known, consumes a byte whenever a known code has one, and changes the carry-over only when the stream is used up, leaving it shorter than the pending width |
| SerialDecoder.CompleteRead | ShepardDCS/ShepardDCS_Java/src/org/mach30/shepard_ts/server/ShepardSerialEventListener.java:96-116 | with the whole payload present, thrust is set from the unsigned and temperature from the signed short, and time from getInt unless intval holds the sentinel; the code is cleared |
| SerialDecoder.DeferredThrust | ShepardDCS/ShepardDCS_Java/src/org/mach30/shepard_ts/server/ShepardSerialEventListener.java:96-101 | a cut-off thrust payload still sets thrust, to the conversion of 0, and the code stays pending |
| SerialDecoder.DeferredTemperature | ShepardDCS/ShepardDCS_Java/src/org/mach30/shepard_ts/server/ShepardSerialEventListener.java:103-109 | a cut-off temperature payload changes no field and keeps the code |
| SerialDecoder.DeferredTimeStamp | ShepardDCS/ShepardDCS_Java/src/org/mach30/shepard_ts/server/ShepardSerialEventListener.java:110-116 | a cut-off time stamp writes the sentinel into time, because the guard tests intval |
| SerialDecoder.UnknownCodeSkipped | ShepardDCS/ShepardDCS_Java/src/org/mach30/shepard_ts/server/ShepardSerialEventListener.java:117-120 | an unknown byte read as a code, 0 included, is consumed and cleared, and decoding goes on as if it had not been there |
| SerialDecoder.Emit | ShepardDCS/ShepardDCS_Java/src/org/mach30/shepard_ts/server/ShepardSerialEventListener.java:123-128 | a complete record is handed on once and cleared; an incomplete one is kept |
| SerialDecoder.ReadCode | ShepardDCS/ShepardDCS_Java/src/org/mach30/shepard_ts/server/ShepardSerialEventListener.java:88-91 | a byte is taken as a code only when no code is pending |
| SerialDecoder.Step | ShepardDCS/ShepardDCS_Java/src/org/mach30/shepard_ts/server/ShepardSerialEventListener.java:84-129 | every pass consumes a byte, hands on at most one record, keeps the earlier ones, and leaves no complete record behind |
| SerialDecoder.RunAppends | ShepardDCS/ShepardDCS_Java/src/org/mach30/shepard_ts/server/ShepardSerialEventListener.java:84-129 | the loop only appends records, and every record it hands on is complete |
| SerialDecoder.RunCarry | ShepardDCS/ShepardDCS_Java/src/org/mach30/shepard_ts/server/ShepardSerialEventListener.java:149-168 | after the loop the carry-over is shorter than the pending code's width |
| SerialDecoder.Start | ShepardDCS/ShepardDCS_Java/src/org/mach30/shepard_ts/server/ShepardSerialEventListener.java:70-77 | carried bytes go in order before the new chunk and leftoverBytes becomes 0 |
| SerialDecoder.FeedKeepsInv | ShepardDCS/ShepardDCS_Java/src/org/mach30/shepard_ts/server/ShepardSerialEventListener.java:52-145 | between calls the code is pending, the carry-over fits its width and the record is incomplete; every record handed on is complete |
| SerialDecoder.ShepardSerialEventListener.constructor | ShepardDCS/ShepardDCS_Java/src/org/mach30/shepard_ts/server/ShepardSerialEventListener.java:21-43 | a new listener has no code, no carry-over and an unset record |
| SerialDecoder.ShepardSerialEventListener.ReadBytes | ShepardDCS/ShepardDCS_Java/src/org/mach30/shepard_ts/server/ShepardSerialEventListener.java:149-168 | the read on the buffer and leftover array is the read BytesRead specifies |
| SerialDecoder.ShepardSerialEventListener.ReadSignedShort | ShepardDCS/ShepardDCS_Java/src/org/mach30/shepard_ts/server/ShepardSerialEventListener.java:172-189 | as SignedShortRead |
| SerialDecoder.ShepardSerialEventListener.ReadUnsignedShort | ShepardDCS/ShepardDCS_Java/src/org/mach30/shepard_ts/server/ShepardSerialEventListener.java:193-197 | as UnsignedShortRead |
| SerialDecoder.ShepardSerialEventListener.ReadUnsignedInteger | ShepardDCS/ShepardDCS_Java/src/org/mach30/shepard_ts/server/ShepardSerialEventListener.java:201-218 | as UnsignedIntegerRead |
| SerialDecoder.ShepardSerialEventListener.Switch | ShepardDCS/ShepardDCS_Java/src/org/mach30/shepard_ts/server/ShepardSerialEventListener.java:94-121 | the switch on the object's fields is Dispatch |
| SerialDecoder.ShepardSerialEventListener.Iterate | ShepardDCS/ShepardDCS_Java/src/org/mach30/shepard_ts/server/ShepardSerialEventListener.java:86-128 | one pass of the while loop is Step |
| SerialDecoder.ShepardSerialEventListener.SerialEvent | ShepardDCS/ShepardDCS_Java/src/org/mach30/shepard_ts/server/ShepardSerialEventListener.java:52-145 | a serial event changes the listener and hands on records exactly as OnEvent says; only RX events are read |
| Frames.Apply | ShepardDCS/ShepardDCS_Java/src/org/mach30/shepard_ts/server/ShepardSerialEventListener.java:96-116 | a thrust, temperature or time frame sets only its own field; noise sets none |
| Frames.Handed | ShepardDCS/ShepardDCS_Java/src/org/mach30/shepard_ts/server/ShepardSerialEventListener.java:123-128 | a frame hands on a record exactly when it completes one |
| Frames.Be16Unsigned | ShepardDCS/ShepardDCS_Java/src/org/mach30/shepard_ts/server/ShepardSerialEventListener.java:193-197 | the unsigned read of a big-endian encoded 16-bit value gives it back |
| Frames.Be16Signed | ShepardDCS/ShepardDCS_Java/src/org/mach30/shepard_ts/server/ShepardSerialEventListener.java:172-189 | getShort of a big-endian encoded signed 16-bit value gives it back |
| Frames.Be32Unsigned | ShepardDCS/ShepardDCS_Java/src/org/mach30/shepard_ts/server/ShepardSerialEventListener.java:201-218 | the four big-endian bytes of a 32-bit value read back as it |
| Frames.StepField | ShepardDCS/ShepardDCS_Java/src/org/mach30/shepard_ts/server/ShepardSerialEventListener.java:84-129 | one pass over a whole frame applies the frame and hands on the record it completes |
| Frames.RunFrames | ShepardDCS/ShepardDCS_Java/src/org/mach30/shepard_ts/server/ShepardSerialEventListener.java:84-129 | the loop over encoded frames with times below 2^31 hands on exactly the records the frames assemble |
| Frames.FeedFrames | ShepardDCS/ShepardDCS_Java/src/org/mach30/shepard_ts/server/ShepardSerialEventListener.java:52-145 | one event of whole frames, from a new listener, hands on the assembled records and keeps the partial one |
| Frames.StepWideTime | ShepardDCS/ShepardDCS_Java/src/org/mach30/shepard_ts/server/ShepardSerialEventListener.java:209 | a time of 2^31 or more is stored as that value less 2^32 |
| Frames.ExampleFrame | ShepardDCS/ShepardDCS_Java/src/org/mach30/shepard_ts/server/ShepardSerialEventListener.java:52-145 | a noise byte and thrust 100, temperature 10, time 1 hand on one record and leave a new listener's state |
| Frames.ResumeAcrossChunks | ShepardDCS/ShepardDCS_Java/src/org/mach30/shepard_ts/server/ShepardSerialEventListener.java:70-77 | a thrust frame cut after its first payload byte resumes in the next chunk as if sent whole |
| Frames.SplitThrustAsWritten | ShepardDCS/ShepardDCS_Java/src/org/mach30/shepard_ts/server/ShepardSerialEventListener.java:96-101 | a thrust payload cut by a chunk boundary hands on a record with thrust from 0 instead of 100 |
| Frames.WideTimeAsWritten | ShepardDCS/ShepardDCS_Java/src/org/mach30/shepard_ts/server/ShepardSerialEventListener.java:209 | a time stamp 0x80000000 becomes the unset sentinel and the record is never handed on |
| IntendedDecoder.Decode | ShepardDCS/ShepardDCS_Java/src/org/mach30/shepard_ts/server/ShepardSerialEventListener.java:201-218 | the reference decoder reads a time stamp as unsigned, never negative |
| IntendedDecoder.IFeedSplit | ShepardDCS/ShepardDCS_Java/src/org/mach30/shepard_ts/server/ShepardSerialEventListener.java:70-77 | in the reference decoder, two chunks hand on what their concatenation does and leave the same state |
| IntendedDecoder.IRunPayload | ShepardDCS/ShepardDCS_Java/src/org/mach30/shepard_ts/server/ShepardSerialEventListener.java:94-128 | a code and its whole payload set the field and hand on a completed record |
| IntendedDecoder.IRunFrames | ShepardDCS/ShepardDCS_Java/src/org/mach30/shepard_ts/server/ShepardSerialEventListener.java:84-129 | the reference decoder hands on exactly the records the frames assemble, wide times included |
| IntendedDecoder.IFeedFramesSplit | ShepardDCS/ShepardDCS_Java/src/org/mach30/shepard_ts/server/ShepardSerialEventListener.java:70-77 | however encoded frames are cut in two, the reference decoder hands on the assembled records |
| IntendedDecoder.SplitThrustIntended | ShepardDCS/ShepardDCS_Java/src/org/mach30/shepard_ts/server/ShepardSerialEventListener.java:96-101 | the reference decoder hands on thrust 100 for the cut-thrust input |
| IntendedDecoder.WideTimeIntended | ShepardDCS/ShepardDCS_Java/src/org/mach30/shepard_ts/server/ShepardSerialEventListener.java:209 | the reference decoder hands on the record with time 0x80000000 |
| TrunkSerialDecoder.ShortRead | trunk/ShepardDCS/ShepardDCS_Java/src/org/mach30/shepard_ts/server/ShepardSerialEventListener.java:145-171 | two bytes give getShort and clear the code; fewer give Integer.MIN_VALUE, carry at most one byte and keep the code |
| TrunkSerialDecoder.Dispatch | trunk/ShepardDCS/ShepardDCS_Java/src/org/mach30/shepard_ts/server/ShepardSerialEventListener.java:93-119 | a known code consumes a byte when there is one; an unknown code changes nothing at all |
| TrunkSerialDecoder.CompleteShort | trunk/ShepardDCS/ShepardDCS_Java/src/org/mach30/shepard_ts/server/ShepardSerialEventListener.java:93-115 | every known code reads a signed short into its field, time included, and clears the code |
| TrunkSerialDecoder.DeferredShort | trunk/ShepardDCS/ShepardDCS_Java/src/org/mach30/shepard_ts/server/ShepardSerialEventListener.java:148-170 | a cut-off payload leaves the field, keeps the code and carries the remaining byte |
| TrunkSerialDecoder.ZeroSkipped | trunk/ShepardDCS/ShepardDCS_Java/src/org/mach30/shepard_ts/server/ShepardSerialEventListener.java:87-90 | a 0x00 read as a code is consumed and the next byte is read as a code |
| TrunkSerialDecoder.Emit | trunk/ShepardDCS/ShepardDCS_Java/src/org/mach30/shepard_ts/server/ShepardSerialEventListener.java:121-126 | a complete record is handed on once and cleared |
| TrunkSerialDecoder.ReadCode | trunk/ShepardDCS/ShepardDCS_Java/src/org/mach30/shepard_ts/server/ShepardSerialEventListener.java:87-90 | a byte is taken as a code only when none is pending |
| TrunkSerialDecoder.Step | trunk/ShepardDCS/ShepardDCS_Java/src/org/mach30/shepard_ts/server/ShepardSerialEventListener.java:83-127 | a pass consumes a byte unless the code is an unknown non-zero one, and then changes nothing |
| TrunkSerialDecoder.Run | trunk/ShepardDCS/ShepardDCS_Java/src/org/mach30/shepard_ts/server/ShepardSerialEventListener.java:83-127 | the loop ends with the stream used up unless it is stuck on an unknown code |
| TrunkSerialDecoder.StuckForever | trunk/ShepardDCS/ShepardDCS_Java/src/org/mach30/shepard_ts/server/ShepardSerialEventListener.java:83-118 | once stuck, any number of further passes changes nothing, so the loop does not end |
| TrunkSerialDecoder.Start | trunk/ShepardDCS/ShepardDCS_Java/src/org/mach30/shepard_ts/server/ShepardSerialEventListener.java:70-77 | carried bytes go before the new chunk and leftoverBytes becomes 0 |
| TrunkSerialDecoder.RunIsCRun | trunk/ShepardDCS/ShepardDCS_Java/src/org/mach30/shepard_ts/server/ShepardSerialEventListener.java:83-127 | the loop agrees with a decoder that keeps no carry-over state of its own |
| TrunkSerialDecoder.CRunAppend | trunk/ShepardDCS/ShepardDCS_Java/src/org/mach30/shepard_ts/server/ShepardSerialEventListener.java:70-77 | decoding more bytes continues the earlier decoding |
| TrunkSerialDecoder.FeedSplit | trunk/ShepardDCS/ShepardDCS_Java/src/org/mach30/shepard_ts/server/ShepardSerialEventListener.java:52-143 | two chunks hand on what their concatenation does and leave the same state, so with 2-byte fields no boundary loses a record |
| TrunkSerialDecoder.FeedKeepsInv | trunk/ShepardDCS/ShepardDCS_Java/src/org/mach30/shepard_ts/server/ShepardSerialEventListener.java:52-143 | between calls the carry-over holds at most one byte of a pending known code |
| TrunkSerialDecoder.StrayCodeStalls | trunk/ShepardDCS/ShepardDCS_Java/src/org/mach30/shepard_ts/server/ShepardSerialEventListener.java:116-118 | a stray 0x01 before three whole frames hands on nothing and the listener stalls, ignoring later chunks |
| TrunkSerialDecoder.ResetDispatch | trunk/ShepardDCS/ShepardDCS_Java/src/org/mach30/shepard_ts/server/ShepardSerialEventListener.java:116-118 | the corrected default branch clears an unknown code and otherwise switches as written |
| TrunkSerialDecoder.ResetStep | trunk/ShepardDCS/ShepardDCS_Java/src/org/mach30/shepard_ts/server/ShepardSerialEventListener.java:83-127 | with the code cleared every pass consumes a byte and leaves a known or no code |
| TrunkSerialDecoder.ResetRun | trunk/ShepardDCS/ShepardDCS_Java/src/org/mach30/shepard_ts/server/ShepardSerialEventListener.java:83-127 | with the code cleared the loop always ends and leaves a known or no code |
| TrunkSerialDecoder.ResetSkipsStray | trunk/ShepardDCS/ShepardDCS_Java/src/org/mach30/shepard_ts/server/ShepardSerialEventListener.java:116-118 | with the code cleared a stray byte costs only itself |
| TrunkSerialDecoder.StrayCodeRecovers | trunk/ShepardDCS/ShepardDCS_Java/src/org/mach30/shepard_ts/server/ShepardSerialEventListener.java:116-118 | with the code cleared the input that stalls hands on its record |
| TrunkSerialDecoder.TrunkSerialEventListener.constructor | trunk/ShepardDCS/ShepardDCS_Java/src/org/mach30/shepard_ts/server/ShepardSerialEventListener.java:21-43 | a new listener has no code, no carry-over and an unset record |
| TrunkSerialDecoder.TrunkSerialEventListener.ReadShort | trunk/ShepardDCS/ShepardDCS_Java/src/org/mach30/shepard_ts/server/ShepardSerialEventListener.java:145-171 | the read on the buffer and leftover array is ShortRead |
| TrunkSerialDecoder.TrunkSerialEventListener.Switch | trunk/ShepardDCS/ShepardDCS_Java/src/org/mach30/shepard_ts/server/ShepardSerialEventListener.java:93-119 | the switch on the object's fields is Dispatch |
| TrunkSerialDecoder.TrunkSerialEventListener.Iterate | trunk/ShepardDCS/ShepardDCS_Java/src/org/mach30/shepard_ts/server/ShepardSerialEventListener.java:85-126 | one pass of the while loop is Step |
| TrunkSerialDecoder.TrunkSerialEventListener.SerialEvent | trunk/ShepardDCS/ShepardDCS_Java/src/org/mach30/shepard_ts/server/ShepardSerialEventListener.java:52-143 | a serial event changes the listener and hands on records exactly as OnEvent says |
| SerialServer.NonNegative | ShepardDCS/ShepardDCS_Java/src/org/mach30/shepard_ts/server/CollectionServer.java:111-118 | a value is accepted exactly when it parses as a non-negative int, and is that int |
| SerialServer.PairSetsOwnField | ShepardDCS/ShepardDCS_Java/src/org/mach30/shepard_ts/server/CollectionServer.java:105-143 | -port is taken verbatim; any other value that is not a non-negative int is an error; a good value sets its own flag's field and no other |
| SerialServer.ArgsAppend | ShepardDCS/ShepardDCS_Java/src/org/mach30/shepard_ts/server/CollectionServer.java:95-103 | arguments are read in pairs from the front, and the first error stops the parse |
| SerialServer.TrailingTokenIgnored | ShepardDCS/ShepardDCS_Java/src/org/mach30/shepard_ts/server/CollectionServer.java:95-103 | a trailing unpaired token is ignored |
| SerialServer.LastOccurrenceWins | ShepardDCS/ShepardDCS_Java/src/org/mach30/shepard_ts/server/CollectionServer.java:120-143 | the last occurrence of an integer flag decides its field |
| SerialServer.CollectionServer.constructor | ShepardDCS/ShepardDCS_Java/src/org/mach30/shepard_ts/server/CollectionServer.java:28-34 | the defaults 115200, 8, 1, 0, 2500 and 2, no port, nothing connected, an empty status |
| SerialServer.CollectionServer.ParseArgs | ShepardDCS/ShepardDCS_Java/src/org/mach30/shepard_ts/server/CollectionServer.java:89-146 | the loop over the arguments sets the settings as ApplyArgs does and changes nothing else |
| SerialServer.CollectionServer.ApplyParam | ShepardDCS/ShepardDCS_Java/src/org/mach30/shepard_ts/server/CollectionServer.java:105-143 | one pair sets the settings as ApplyPair does |
| SerialServer.PortNames | ShepardDCS/ShepardDCS_Java/src/org/mach30/shepard_ts/server/CollectionServer.java:148-162 | with a port the only candidate is portName; without one, every available port in order |
| SerialServer.CollectionServer.GetPortNames | ShepardDCS/ShepardDCS_Java/src/org/mach30/shepard_ts/server/CollectionServer.java:148-162 | the loop over the port list gives PortNames |
| SerialServer.PortNameIgnored | ShepardDCS/ShepardDCS_Java/src/org/mach30/shepard_ts/server/CollectionServer.java:148-162 | with -port COM3 and no port yet, both COM1 and COM3 are tried |
| SerialServer.IntendedPortNames | ShepardDCS/ShepardDCS_Java/src/org/mach30/shepard_ts/server/CollectionServer.java:72-79 | a given port name is the only candidate; otherwise every available port |
| SerialServer.AttemptsStayOnCandidate | ShepardDCS/ShepardDCS_Java/src/org/mach30/shepard_ts/server/CollectionServer.java:191-271 | with a single candidate, no attempt makes another port current or connected |
| SerialServer.IntendedDetectOnlyNamedPort | ShepardDCS/ShepardDCS_Java/src/org/mach30/shepard_ts/server/CollectionServer.java:72-79 | with -port n and the intended candidates, only n is ever made current, and the connected port is n or the earlier one, for all platform lists and probes |
| SerialServer.IntendedNamedPortConnects | ShepardDCS/ShepardDCS_Java/src/org/mach30/shepard_ts/server/CollectionServer.java:72-79 | with -port n and the intended candidates, an acknowledgement of n in the first attempt connects exactly n |
| SerialServer.CollectionServer.SetStatus | ShepardDCS/ShepardDCS_Java/src/org/mach30/shepard_ts/server/CollectionServer.java:164-168 | only the status changes, and it is printed |
| SerialServer.CollectionServer.SetErrorStatus | ShepardDCS/ShepardDCS_Java/src/org/mach30/shepard_ts/server/CollectionServer.java:170-175 | the status changes and the error flag is set |
| SerialServer.HeardExactly | ShepardDCS/ShepardDCS_Java/src/org/mach30/shepard_ts/server/CollectionServer.java:295-304 | the detector reports connected exactly when some event carried one byte, and never reverts |
| SerialServer.DetectionListener.constructor | ShepardDCS/ShepardDCS_Java/src/org/mach30/shepard_ts/server/CollectionServer.java:287-317 | a new detector is not connected |
| SerialServer.DetectionListener.SerialEvent | ShepardDCS/ShepardDCS_Java/src/org/mach30/shepard_ts/server/CollectionServer.java:295-304 | an event of one byte sets connected; any other leaves it |
| SerialServer.DetectionListener.IsConnected | ShepardDCS/ShepardDCS_Java/src/org/mach30/shepard_ts/server/CollectionServer.java:312-315 | returns the flag |
| SerialServer.TryPort | ShepardDCS/ShepardDCS_Java/src/org/mach30/shepard_ts/server/CollectionServer.java:200-268 | a probe that acknowledges makes the port current and connected; a clean probe without acknowledgement closes it; a failure leaves it current |
| SerialServer.FirstAck | ShepardDCS/ShepardDCS_Java/src/org/mach30/shepard_ts/server/CollectionServer.java:195-252 | the first candidate whose probe acknowledges, when there is one |
| SerialServer.Ports | ShepardDCS/ShepardDCS_Java/src/org/mach30/shepard_ts/server/CollectionServer.java:195-269 | candidates are probed in order until the first acknowledgement, which becomes the port |
| SerialServer.AckEndsDiscovery | ShepardDCS/ShepardDCS_Java/src/org/mach30/shepard_ts/server/CollectionServer.java:191-271 | an acknowledgement ends discovery with that port connected, and the status still says the attempt failed |
| SerialServer.LastFailureEndsDiscovery | ShepardDCS/ShepardDCS_Java/src/org/mach30/shepard_ts/server/CollectionServer.java:191-268 | a failure on the last candidate leaves currport set, which ends discovery without a port |
| SerialServer.NoAckRetries | ShepardDCS/ShepardDCS_Java/src/org/mach30/shepard_ts/server/CollectionServer.java:191-258 | an attempt whose probes all close cleanly leads to the next attempt |
| SerialServer.NoAckGivesUp | ShepardDCS/ShepardDCS_Java/src/org/mach30/shepard_ts/server/CollectionServer.java:191-271 | when no probe ever acknowledges, no port is found after all attempts |
| SerialServer.NoHardwareFound | ShepardDCS/ShepardDCS_Java/src/org/mach30/shepard_ts/server/CollectionServer.java:274-277 | then the error status reports that no hardware was found |
| SerialServer.FirstAttemptConnects | ShepardDCS/ShepardDCS_Java/src/org/mach30/shepard_ts/server/CollectionServer.java:186-278 | an acknowledgement in the first attempt connects the first acknowledging available port |
| SerialServer.PortDetector.Listen | ShepardDCS/ShepardDCS_Java/src/org/mach30/shepard_ts/server/CollectionServer.java:295-304 | the detector fed every event of a probe reports Heard |
| SerialServer.PortDetector.TryPortAt | ShepardDCS/ShepardDCS_Java/src/org/mach30/shepard_ts/server/CollectionServer.java:200-268 | one candidate as TryPort says |
| SerialServer.PortDetector.TryCandidates | ShepardDCS/ShepardDCS_Java/src/org/mach30/shepard_ts/server/CollectionServer.java:195-269 | the inner loop as Ports says |
| SerialServer.PortDetector.RunAttempt | ShepardDCS/ShepardDCS_Java/src/org/mach30/shepard_ts/server/CollectionServer.java:191-271 | one attempt as Attempt says |
| SerialServer.PortDetector.Run | ShepardDCS/ShepardDCS_Java/src/org/mach30/shepard_ts/server/CollectionServer.java:186-278 | the whole discovery as Detect says |
| TcpServer.ScanServerPort | ShepardDCS/ShepardDCS_Java/src/org/mach30/shepard_ts/server/TcpCollectionServer.java:38-45 | the scan gives the default or an int |
| TcpServer.LastServerPortWins | ShepardDCS/ShepardDCS_Java/src/org/mach30/shepard_ts/server/TcpCollectionServer.java:38-45 | the last -tcpport value decides the port |
| TcpServer.TrailingServerPortIgnored | ShepardDCS/ShepardDCS_Java/src/org/mach30/shepard_ts/server/TcpCollectionServer.java:38-45 | a trailing -tcpport without a value is ignored |
| TcpServer.NoServerPortArg | ShepardDCS/ShepardDCS_Java/src/org/mach30/shepard_ts/server/TcpCollectionServer.java:23-45 | without -tcpport the port stays at its default |
| TcpServer.TcpCollectionServer.constructor | ShepardDCS/ShepardDCS_Java/src/org/mach30/shepard_ts/server/TcpCollectionServer.java:20-31 | port 9999, no client, the serial defaults |
| TcpServer.TcpCollectionServer.ParseArgs | ShepardDCS/ShepardDCS_Java/src/org/mach30/shepard_ts/server/TcpCollectionServer.java:33-46 | the serial arguments are parsed first; then -tcpport is scanned, a bad value being an error |
| TcpServer.Command | ShepardDCS/ShepardDCS_Java/src/org/mach30/shepard_ts/server/TcpCollectionServer.java:192-221 | "R" is 0x52, "Q" is 0x51 and no other line is a command |
| TcpServer.Greeting | ShepardDCS/ShepardDCS_Java/src/org/mach30/shepard_ts/server/TcpCollectionServer.java:166-170 | "Connection established", then "Current server status: " and the status exactly when the status is not empty |
| TcpServer.ConnectGreets | ShepardDCS/ShepardDCS_Java/src/org/mach30/shepard_ts/server/TcpCollectionServer.java:135-170 | a connection sets the three session fields and sends the greeting |
| TcpServer.LineHeldUntilReady | ShepardDCS/ShepardDCS_Java/src/org/mach30/shepard_ts/server/TcpCollectionServer.java:179-189 | a line is held, not dropped, until the first poll on which the device is connected, and is then acted on |
| TcpServer.ReadyLineWrites | ShepardDCS/ShepardDCS_Java/src/org/mach30/shepard_ts/server/TcpCollectionServer.java:192-221 | with the device ready, "R" writes 0x52, "Q" writes 0x51 and any other line nothing |
| TcpServer.NothingWrittenUnready | ShepardDCS/ShepardDCS_Java/src/org/mach30/shepard_ts/server/TcpCollectionServer.java:179-189 | nothing is written to the device while it is not ready |
| TcpServer.Act | ShepardDCS/ShepardDCS_Java/src/org/mach30/shepard_ts/server/TcpCollectionServer.java:192-221 | a command is written once when the write succeeds; a failed write shuts the server down |
| TcpServer.CloseClient | ShepardDCS/ShepardDCS_Java/src/org/mach30/shepard_ts/server/TcpCollectionServer.java:240-254 | socket, reader and writer all become null |
| TcpServer.DisconnectResets | ShepardDCS/ShepardDCS_Java/src/org/mach30/shepard_ts/server/TcpCollectionServer.java:176-232 | a disconnect or a read error clears the session and goes back to accepting |
| TcpServer.PushRule | ShepardDCS/ShepardDCS_Java/src/org/mach30/shepard_ts/server/TcpCollectionServer.java:66-74 | a status line is pushed exactly when the status changed and a client writer exists; lastStatus is updated either way |
| TcpServer.WatchSendsChanges | ShepardDCS/ShepardDCS_Java/src/org/mach30/shepard_ts/server/TcpCollectionServer.java:66-74 | over many polls the client receives each status change once, in order |
| TcpServer.WriteRecord | ShepardDCS/ShepardDCS_Java/src/org/mach30/shepard_ts/server/TcpCollectionServer.java:269-276 | a record is written to the client only when a writer exists |
| TcpServer.TcpCollectionServer.CloseClientConnection | ShepardDCS/ShepardDCS_Java/src/org/mach30/shepard_ts/server/TcpCollectionServer.java:240-254 | as CloseClient |
| TcpServer.TcpCollectionServer.ClientStep | ShepardDCS/ShepardDCS_Java/src/org/mach30/shepard_ts/server/TcpCollectionServer.java:128-234 | one step of the client thread as Step says |
| TcpServer.TcpCollectionServer.Execute | ShepardDCS/ShepardDCS_Java/src/org/mach30/shepard_ts/server/TcpCollectionServer.java:192-221 | acting on a line as Act says |
| TcpServer.TcpCollectionServer.Run | ShepardDCS/ShepardDCS_Java/src/org/mach30/shepard_ts/server/TcpCollectionServer.java:128-234 | the client thread over a script as Serve says |
| TcpServer.TcpCollectionServer.HandleData | ShepardDCS/ShepardDCS_Java/src/org/mach30/shepard_ts/server/TcpCollectionServer.java:269-276 | as WriteRecord |
| TcpServer.TcpCollectionServer.PushStatus | ShepardDCS/ShepardDCS_Java/src/org/mach30/shepard_ts/server/TcpCollectionServer.java:68-74 | one poll of the status push as Push says |
| TcpServer.TcpCollectionServer.WatchStatus | ShepardDCS/ShepardDCS_Java/src/org/mach30/shepard_ts/server/TcpCollectionServer.java:66-74 | the polling loop as Watch says |
| TrunkTcpServer.TrunkCommand | trunk/ShepardDCS/ShepardDCS_Java/src/org/mach30/shepard_ts/server/TcpCollectionServer.java:178-192 | only "R" is a command, and it is 0x52 |
| TrunkTcpServer.TrunkCloseClient | trunk/ShepardDCS/ShepardDCS_Java/src/org/mach30/shepard_ts/server/TcpCollectionServer.java:208-218 | only the socket becomes null; reader and writer stay |
| TrunkTcpServer.OnlyReadyWritten | trunk/ShepardDCS/ShepardDCS_Java/src/org/mach30/shepard_ts/server/TcpCollectionServer.java:175-192 | 0x52 is written exactly for "R", at once, when a port is set and the write succeeds; other lines change nothing |
| TrunkTcpServer.DisconnectEndsAccepting | trunk/ShepardDCS/ShepardDCS_Java/src/org/mach30/shepard_ts/server/TcpCollectionServer.java:130-194 | a clean disconnect keeps clientSocket set, so the accept loop ends and no later client is served |
| TrunkTcpServer.ReadErrorKeepsStreams | trunk/ShepardDCS/ShepardDCS_Java/src/org/mach30/shepard_ts/server/TcpCollectionServer.java:195-200 | a read error resets only the socket and goes back to accepting |
| TrunkTcpServer.TrunkWriteRecord | trunk/ShepardDCS/ShepardDCS_Java/src/org/mach30/shepard_ts/server/TcpCollectionServer.java:234-237 | a record is written without a null check; it fails exactly when no writer exists |
| TrunkTcpServer.RecordsToStaleWriter | trunk/ShepardDCS/ShepardDCS_Java/src/org/mach30/shepard_ts/server/TcpCollectionServer.java:195-237 | after a read error records still go to the old client's writer |
| TrunkTcpServer.TrunkTcpCollectionServer.constructor | trunk/ShepardDCS/ShepardDCS_Java/src/org/mach30/shepard_ts/server/TcpCollectionServer.java:20-31 | port 9999, no client, the serial defaults |
| TrunkTcpServer.TrunkTcpCollectionServer.CloseClientConnection | trunk/ShepardDCS/ShepardDCS_Java/src/org/mach30/shepard_ts/server/TcpCollectionServer.java:208-218 | as TrunkCloseClient |
| TrunkTcpServer.TrunkTcpCollectionServer.ClientStep | trunk/ShepardDCS/ShepardDCS_Java/src/org/mach30/shepard_ts/server/TcpCollectionServer.java:128-202 | one step of the client thread as TrunkStep says |
| TrunkTcpServer.TrunkTcpCollectionServer.Run | trunk/ShepardDCS/ShepardDCS_Java/src/org/mach30/shepard_ts/server/TcpCollectionServer.java:128-202 | the client thread over a script as TrunkServe says |
| TrunkTcpServer.TrunkTcpCollectionServer.HandleData | trunk/ShepardDCS/ShepardDCS_Java/src/org/mach30/shepard_ts/server/TcpCollectionServer.java:234-237 | as TrunkWriteRecord, with the failure reported |
| CollectionPanel.NotationPart | trunk/ShepardDCS/ShepardDCS_Java/src/org/mach30/shepard_ts/client/ShepardDataCollectionPanel.java:249-253 | the notation segment is empty exactly when the trimmed notation is, and otherwise starts with "__" |
| CollectionPanel.FileNameShape | trunk/ShepardDCS/ShepardDCS_Java/src/org/mach30/shepard_ts/client/ShepardDataCollectionPanel.java:241-257 | the name starts with the save location and the date stamp and ends in ".csv" |
| CollectionPanel.NotationSegmentIffText | trunk/ShepardDCS/ShepardDCS_Java/src/org/mach30/shepard_ts/client/ShepardDataCollectionPanel.java:249-253 | the "__" segment appears exactly when the trimmed notation is not empty |
| CollectionPanel.NameIgnoresSurroundingBlanks | trunk/ShepardDCS/ShepardDCS_Java/src/org/mach30/shepard_ts/client/ShepardDataCollectionPanel.java:249-253 | blanks around the notation do not change the name |
| CollectionPanel.SeparatorSurvives | trunk/ShepardDCS/ShepardDCS_Java/src/org/mach30/shepard_ts/client/ShepardDataCollectionPanel.java:252 | the notation "a/b" keeps its '/' in the file name |
| CollectionPanel.ReplaceSpecial | trunk/ShepardDCS/ShepardDCS_Java/src/org/mach30/shepard_ts/client/ShepardDataCollectionPanel.java:234-240 | each special character is replaced by '_' and every other kept |
| CollectionPanel.IntendedNameStaysInDirectory | trunk/ShepardDCS/ShepardDCS_Java/src/org/mach30/shepard_ts/client/ShepardDataCollectionPanel.java:234-240 | the corrected notation segment holds no special character and keeps the trimmed notation's length |
| CollectionPanel.AppendLineWritesOneLine | trunk/ShepardDCS/ShepardDCS_Java/src/org/mach30/shepard_ts/client/ShepardDataCollectionPanel.java:260-269 | a good write appends the text and one '\n'; a failed one appends at most the text and reports failure |
| CollectionPanel.ShepardDataCollectionPanel.AddLineToCsv | trunk/ShepardDCS/ShepardDCS_Java/src/org/mach30/shepard_ts/client/ShepardDataCollectionPanel.java:260-269 | only the open file changes, as AppendLine says |
| CollectionPanel.ActionsKeepRecordable | trunk/ShepardDCS/ShepardDCS_Java/src/org/mach30/shepard_ts/client/ShepardDataCollectionPanel.java:145-225 | every action keeps the panel's invariant: while recording, csvOutput names an open file |
| CollectionPanel.PressNeedsConnection | trunk/ShepardDCS/ShepardDCS_Java/src/org/mach30/shepard_ts/client/ShepardDataCollectionPanel.java:148-156 | the record button does nothing unconnected; the connect button starts a connection only unconnected |
| CollectionPanel.StartWritesHeader | trunk/ShepardDCS/ShepardDCS_Java/src/org/mach30/shepard_ts/client/ShepardDataCollectionPanel.java:175-198 | recording starts exactly when the file opens and the header line is written; otherwise csvOutput is null |
| CollectionPanel.StopClosesOutput | trunk/ShepardDCS/ShepardDCS_Java/src/org/mach30/shepard_ts/client/ShepardDataCollectionPanel.java:160-174 | stopping sets recording false and csvOutput null |
| CollectionPanel.IdleIgnoresData | trunk/ShepardDCS/ShepardDCS_Java/src/org/mach30/shepard_ts/client/ShepardDataCollectionPanel.java:321-334 | data is not written while not recording |
| CollectionPanel.AppendFailureStops | trunk/ShepardDCS/ShepardDCS_Java/src/org/mach30/shepard_ts/client/ShepardDataCollectionPanel.java:321-334 | a failed append stops recording without nulling csvOutput |
| CollectionPanel.RecordingAppendsEveryLine | trunk/ShepardDCS/ShepardDCS_Java/src/org/mach30/shepard_ts/client/ShepardDataCollectionPanel.java:318-336 | while appends succeed every record becomes one line of the file, in order, and is plotted |
| CollectionPanel.ShepardDataCollectionPanel.constructor | trunk/ShepardDCS/ShepardDCS_Java/src/org/mach30/shepard_ts/client/ShepardDataCollectionPanel.java:37-40 | unconnected, not recording, no file |
| CollectionPanel.ShepardDataCollectionPanel.ActionPerformed | trunk/ShepardDCS/ShepardDCS_Java/src/org/mach30/shepard_ts/client/ShepardDataCollectionPanel.java:145-225 | a button as Press says |
| CollectionPanel.ShepardDataCollectionPanel.ConnectionFinished | trunk/ShepardDCS/ShepardDCS_Java/src/org/mach30/shepard_ts/client/ShepardDataCollectionPanel.java:353-374 | the end of a connection attempt as ConnectionDone says |
| CollectionPanel.ShepardDataCollectionPanel.HandleData | trunk/ShepardDCS/ShepardDCS_Java/src/org/mach30/shepard_ts/client/ShepardDataCollectionPanel.java:318-336 | a record as Record says |
| Preferences.NormalizeLocation | ShepardDCS/ShepardDCS_Java/src/org/mach30/shepard_ts/client/PreferencesPanel.java:189-194 | empty text fails at charAt |
| Preferences.NormalizedEndsWithSeparator | ShepardDCS/ShepardDCS_Java/src/org/mach30/shepard_ts/client/PreferencesPanel.java:189-194 | the location ends with the separator; text that already does is kept, any other gets exactly one more |
| Preferences.NormalizeIdempotent | ShepardDCS/ShepardDCS_Java/src/org/mach30/shepard_ts/client/PreferencesPanel.java:190-193 | normalising twice is normalising once |
| Preferences.Fanout | ShepardDCS/ShepardDCS_Java/src/org/mach30/shepard_ts/client/PreferencesPanel.java:174-182 | one event per listener, in registration order, each with the command |
| Preferences.FanoutCallsEachOnce | ShepardDCS/ShepardDCS_Java/src/org/mach30/shepard_ts/client/PreferencesPanel.java:174-182 | every registration is called exactly once, duplicates included |
| Preferences.FanoutAppend | ShepardDCS/ShepardDCS_Java/src/org/mach30/shepard_ts/client/PreferencesPanel.java:174-182 | calling the listeners of two lists is calling each in turn |
| Preferences.PreferencesPanel.constructor | ShepardDCS/ShepardDCS_Java/src/org/mach30/shepard_ts/client/PreferencesPanel.java:58-76 | a shown panel with no listeners |
| Preferences.PreferencesPanel.AddActionListener | ShepardDCS/ShepardDCS_Java/src/org/mach30/shepard_ts/client/PreferencesPanel.java:53-56 | the listener is appended, duplicates kept |
| Preferences.PreferencesPanel.CallActionListeners | ShepardDCS/ShepardDCS_Java/src/org/mach30/shepard_ts/client/PreferencesPanel.java:174-182 | the loop delivers exactly Fanout |
| Preferences.PreferencesPanel.Save | ShepardDCS/ShepardDCS_Java/src/org/mach30/shepard_ts/client/PreferencesPanel.java:184-210 | empty text or no preferences object changes nothing; otherwise the location is normalised, stored when the store succeeds, the frame hidden and "Saved" sent to every listener |
| Preferences.PreferencesPanel.Reopen | ShepardDCS/ShepardDCS_Java/src/org/mach30/shepard_ts/client/PreferencesPanel.java:168-171 | the frame is shown again and nothing else changes |

## Left out

- Float arithmetic: the thrust and temperature conversions are symbolic. `Float.toString` and `Float.parseFloat` are parameters.
- The samples-per-second computation and the `start` clock in `serialEvent`: they use the clock and floating point and change no decoder state.
- Threads and `Thread.sleep`: each thread is a step function driven by explicit events, and the other threads' flags (`port`, `deviceConnected`, `status`) are parameters of each step.
  - The static `deviceConnected` is a field of the server.
  - The 10 ms and 250 ms waits and the `delay/10` sub-waits of `PortDetector` are not modelled.
- The serial port is not modelled.
  - jssc `SerialPort` events are values: the event type and the bytes read.
  - Opening a port, setting its parameters and the discovery write become one probe outcome per port per attempt.
  - The progress dots printed while waiting are not modelled.
- Sockets, readers and writers are identifiers, and their failures are flags of each event.
  - `close()` after a failed serial write is modelled only as ending the client thread. The shutdown it performs on the serial and server sockets is not modelled.
- `PrintWriter` swallows write errors, so the model records every line written to a client as sent.
- Files are strings in a map, keyed by name.
  - `FileOutputStream` failures are flags.
  - `SimpleDateFormat` is a date-stamp parameter, and `File.separatorChar` a separator parameter.
  - `Properties` loading and storing is a flag, and the stored location is a field.
- `getBytes()` writes characters as they are: encodings are not modelled.
- `Integer.parseInt` is modelled for ASCII digits with an optional leading `-` or `+`. Other Unicode decimal digits, which it also accepts, are not modelled.
- Swing: labels, enabling of buttons and fields, and painting are not modelled.
  - Also left out: the preferences button and its "Saved" handler in the collection panel, and the file chooser of the preferences panel.
  - The collection panel is modelled as if a preferences object exists, so the save location is an `Option` value.
- TrunkSerialDecoder.Feed: the loop that never ends on an unknown non-zero code is modelled by a `stalled` flag. A stalled listener returns from every later event without reading it. In the source, that event's thread and every later one never return.
- TrunkSerialDecoder.TrunkSerialEventListener.SerialEvent: assumes that handleData returns. The trunk TCP server registers its listener as soon as a port is found, with or without a client. Before a client connects, handleData's `println` on the null writer raises NullPointerException, which `serialEvent` does not catch. The rest of that chunk is then lost and the record is never cleared, so every later event raises again until a client connects. TrunkTcpServer.TrunkWriteRecord reports this failure, but the decoder model does not stop on it.
- SerialDecoder.Feed: requires the pending code to be 0 or known. This holds from construction on, because the default branch clears unknown codes before the call returns.
- `ShepardDataPanel`, `ImagePanel`, `DataPointBar`, `ShepardGUI`, the ShepardDCS collection panel and `UserPreferences` beyond its null result are not modelled: they are display code.
- `DataCollectionServer`, `ClientlessCollectionServer`, the I2C library and `deviceserver.py` are not modelled: they are entry points, printing glue and device firmware.

## Findings

| source | as written | input that shows it | evidently intended | confidence | as-written member | corrected member |
|---|---|---|---|---|---|---|
| ShepardDCS/ShepardDCS_Java/src/org/mach30/shepard_ts/server/ShepardSerialEventListener.java:96-101 | a deferred thrust read returns `Integer.MIN_VALUE & 0xFFFF`, which is 0, and the guard lets it be assigned, so a record can be completed with thrust from 0 | chunks `FE 00 0A FD 00 00 00 01 FF 00` then `64` | thrust is set only when its payload is complete, so the record of thrust 100 is handed on | not executed | Frames.SplitThrustAsWritten | IntendedDecoder.SplitThrustIntended |
| ShepardDCS/ShepardDCS_Java/src/org/mach30/shepard_ts/server/ShepardSerialEventListener.java:209 | `getInt() & 0xFFFFFFFF` is done in int width and changes nothing, so a time stamp of 2^31 or more is negative, and 0x80000000 equals the unset sentinel | `FF 00 64 FE 00 0A FD 80 00 00 00` | the unsigned 32-bit time stamp 0x80000000 and the record handed on | not executed | Frames.WideTimeAsWritten | IntendedDecoder.WideTimeIntended |
| ShepardDCS/ShepardDCS_Java/src/org/mach30/shepard_ts/server/CollectionServer.java:148-162 | the candidate list tests `port` and ignores `-port`, so every available port is probed | `-port COM3` with available ports COM1, COM3 | as the `listen` documentation at lines 72-79 says, only the named port is tried | not executed | SerialServer.PortNameIgnored | SerialServer.IntendedDetectOnlyNamedPort |
| trunk/ShepardDCS/ShepardDCS_Java/src/org/mach30/shepard_ts/client/ShepardDataCollectionPanel.java:252 | `replaceAll(" \t/\\:", "_")` replaces only the four-character sequence, so separators survive in the notation | notation `a/b` | as the documentation at lines 234-240 says, each special character becomes '_' | not executed | CollectionPanel.SeparatorSurvives | CollectionPanel.IntendedNameStaysInDirectory |
| trunk/ShepardDCS/ShepardDCS_Java/src/org/mach30/shepard_ts/server/ShepardSerialEventListener.java:116-118 | the default branch does not clear an unknown non-zero code, so the loop makes no progress and never ends | `01 FF 00 64 FE 00 0A FD 00 01` | the code is cleared, as the ShepardDCS version does, and the record of the three frames is handed on | not executed | TrunkSerialDecoder.StrayCodeStalls | TrunkSerialDecoder.StrayCodeRecovers |
