# sound-network, modelled in Dafny

sound-network sends bytes between machines as sound. The transmitter works in three steps:

1. It cuts a byte array into chunks of at most seven bytes.
2. It wraps each chunk in a frame. A frame has:
   - a six-bit preamble;
   - the payload length as three Manchester-coded bits;
   - the payload as Manchester-coded bits, least significant bit of each byte first;
   - a four-bit checksum pattern;
   - a six-bit trailer.
3. It plays the frame as a sequence of "on" and "off" tones. Each run of equal signals becomes one segment of `BIT_DURATION` milliseconds per signal.

The receiver works in four steps:

1. It cuts each slice of microphone input into eight partitions and measures the magnitude of the carrier frequency in each one.
2. It classifies each magnitude as on or off against two running averages, one of low magnitudes and one of high magnitudes.
3. It smooths and votes the classifications of one bit's worth of partitions into a bit.
4. It watches the stream of bits for the preamble and hands the bits after it to a frame parser. The parser decodes the length, the payload, the checksum and the trailer, and delivers the payload bytes.

The modules follow the program's components:

- `Manchester`, `FrameParsing`, `FrameWatching`, `SignalParsing`, `RunningAverages`, `AudioDecoding`, `AudioEncoding`, `AudioFrames` and `Constants` each model one source file.
- `Frames` models `Frame`, `DataFrame` and `AckFrame`, and holds the log that stands for `AudioPlayer`.
- `Waves` models `MixedWave` and `EmptyWave`.
- `Binary` and `Wrappers` are shared helpers: bit lists, Java bytes and division, and `Option`/`Result`.
- `EndToEnd` holds the lemmas that connect the transmitter to the receiver.

Classes whose methods change their fields stay Dafny classes:

- `ManchesterParser`, `FrameParser`, `FrameWatcher`, `AudioSignalParser`, `RunningAverage` and `AudioDecoder`;
- `AudioPlayer`, as the log of segments it is handed;
- the `EmptyWave` singleton holder.

The six parser, watcher, average and decoder classes (`ManchesterParser`, `FrameParser`, `FrameWatcher`, `AudioSignalParser`, `RunningAverage`, `AudioDecoder`) each have a pure state datatype and a step function. Each of their methods' `ensures` ties the new state to the step function applied to the old state, and the lemmas are about those step functions. `AudioPlayer.Add` states the new log directly, and the `EmptyWave` holder states the object it hands out.

Loops in the source are methods with `while` loops, proved against a specification function:

- the bit conversions and the Manchester coder;
- the run-length player;
- the signal smoothing, vote and resynchronisation;
- the partitioning;
- the wave mixing.

Pure code is modelled as functions.

Module `EndToEnd` connects the two sides. Its lemmas show that:

- the signals of any frame of 1 to 7 bytes, fed bit by bit to a frame watcher that is outside a frame, deliver exactly the payload with trailing zero bytes dropped;
- an ACK frame delivers an empty array;
- a data frame with an empty payload is lost.

Doubles are modelled as `real`, and Java `byte`s as the `int8` subset of `int`.

## Model

All paths are relative to `src/com/alanrussian/networkingproject/` of the repository, and the cells give them in full.

| member | source | states |
|---|---|---|
| Constants.MaxDataLengthIsSeven | src/com/alanrussian/networkingproject/common/Constants.java:55-61 | The largest payload is 2^3 − 1 = 7 bytes, fixed by the three size bits. |
| Constants.TrailerNegatesPreamble | src/com/alanrussian/networkingproject/common/Constants.java:37-44 | Preamble and trailer are six bits each, and every trailer bit is the negation of the preamble bit in the same position. |
| Constants.SamplesPerBit | src/com/alanrussian/networkingproject/common/Constants.java:27-32 | One bit of 256 ms at 44100 samples per second is 44 × 256 = 11264 samples, with Java's integer division by 1000. |
| Binary.JavaDiv | src/com/alanrussian/networkingproject/out/audio/wave/MixedWave.java:41 | Java's division truncates toward zero: the remainder a − q·b has the sign of the dividend and is smaller than the divisor in magnitude. |
| Binary.SignedOfUnsigned | src/com/alanrussian/networkingproject/out/audio/frame/DataFrame.java:40-49 | Reading a signed byte as its unsigned bit pattern and back gives the same byte. |
| Binary.LowBitsRoundTrip | src/com/alanrussian/networkingproject/out/audio/frame/DataFrame.java:40-49 | The w low bits of a value below 2^w, least significant first, read back as that value. |
| Binary.ValueLowBits | src/com/alanrussian/networkingproject/in/audio/frame/FrameWatcher.java:95-102 | Any bit list is the low-bits spelling of its own value, so spelling and reading are inverse. |
| Manchester.ManchesterParser.constructor | src/com/alanrussian/networkingproject/in/audio/frame/ManchesterParser.java:25-29 | A new parser has no decoded bits and no cached first bit. |
| Manchester.ManchesterParser.AddBit | src/com/alanrussian/networkingproject/in/audio/frame/ManchesterParser.java:31-43 | These cases:<br>- the first bit of a pair is cached;<br>- a second bit equal to the first is the encoding exception and changes nothing;<br>- a second bit that differs appends the first bit and clears the cache;<br>- in every case the new state is the step function of the old. |
| Manchester.ManchesterParser.Size | src/com/alanrussian/networkingproject/in/audio/frame/ManchesterParser.java:55-57 | `size()` is the length of `getData()`. |
| Manchester.FeedAccounts | src/com/alanrussian/networkingproject/in/audio/frame/ManchesterParser.java:31-43 | A successful run of raw bits accounts for every raw bit, two per decoded bit plus the cached one. Earlier decoded bits stay a prefix. |
| Manchester.SizeCountsPairs | src/com/alanrussian/networkingproject/in/audio/frame/ManchesterParser.java:48-57 | From a fresh parser, `size()` is half the number of raw bits. A first bit is pending exactly when that number is odd. |
| Manchester.EqualPairRejected | src/com/alanrussian/networkingproject/in/audio/frame/ManchesterParser.java:31-43 | Two equal bits at a pair boundary fail with the encoding exception, whatever follows. |
| FrameParsing.BitsValue | src/com/alanrussian/networkingproject/in/audio/frame/FrameParser.java:152-162 | A big-endian bit list of length n has a value below 2^n. The value is at least 2^(n−1) when the leading bit is set. |
| FrameParsing.ConvertBooleansToNumber | src/com/alanrussian/networkingproject/in/audio/frame/FrameParser.java:152-162 | The shift-and-add loop computes the big-endian value of the list. |
| FrameParsing.ConvertSnoc | src/com/alanrussian/networkingproject/in/audio/frame/FrameParser.java:152-162 | Appending a bit doubles the value and adds the bit. |
| FrameParsing.ConvertLeadingZeros | src/com/alanrussian/networkingproject/in/audio/frame/FrameParser.java:152-162 | Leading zero bits do not change the value. |
| FrameParsing.ConvertInjective | src/com/alanrussian/networkingproject/in/audio/frame/FrameParser.java:152-162 | Two lists of equal length with equal values are equal, so the size field decodes uniquely. |
| FrameParsing.Step | src/com/alanrussian/networkingproject/in/audio/frame/FrameParser.java:45-79 | `addBit` on an unfinished frame keeps the parser's invariant:<br>- the size is set exactly when three size bits are decoded;<br>- no payload bit arrives before the size;<br>- the payload has at most eight bits per announced byte;<br>- the checksum starts only after the whole payload;<br>- the checksum and trailer indices stay in range. |
| FrameParsing.DataOf | src/com/alanrussian/networkingproject/in/audio/frame/FrameParser.java:86-92 | `getData` yields the payload bits exactly when the frame is finished, and throws otherwise. |
| FrameParsing.IsAckOf | src/com/alanrussian/networkingproject/in/audio/frame/FrameParser.java:99-105 | `isAckFrame` answers exactly when the frame is finished, and throws otherwise. |
| FrameParsing.QuietRunValid | src/com/alanrussian/networkingproject/in/audio/frame/FrameParser.java:45-79 | A run of bits that neither loses nor finishes the frame leaves a valid, unfinished parser. |
| FrameParsing.QuietRunAppend | src/com/alanrussian/networkingproject/in/audio/frame/FrameParser.java:45-79 | Quiet runs compose: running a then b is running a + b. |
| FrameParsing.FrameParser.constructor | src/com/alanrussian/networkingproject/in/audio/frame/FrameParser.java:31-38 | Fresh size and data sub-parsers, no size yet, checksum and trailer indices at 0. |
| FrameParsing.FrameParser.AddBit | src/com/alanrussian/networkingproject/in/audio/frame/FrameParser.java:45-79 | The new state is the step of the old. A frame loss is reported with its message and leaves the state unchanged. On success, the result says whether the frame is now finished. |
| FrameParsing.FrameParser.GetData | src/com/alanrussian/networkingproject/in/audio/frame/FrameParser.java:86-92 | Agrees with the specification of `getData` on the current state. |
| FrameParsing.FrameParser.IsAckFrame | src/com/alanrussian/networkingproject/in/audio/frame/FrameParser.java:99-105 | Agrees with the specification of `isAckFrame` on the current state. |
| FrameParsing.FrameParser.HandleNewSizeBit | src/com/alanrussian/networkingproject/in/audio/frame/FrameParser.java:110-118 | The size sub-parser takes the bit. Once it holds three bits, the size becomes their value. An encoding error changes nothing. The payload, checksum and trailer are untouched. |
| FrameParsing.FrameParser.HandleNewDataBit | src/com/alanrussian/networkingproject/in/audio/frame/FrameParser.java:123-125 | Called while the payload is incomplete. The data sub-parser takes the bit, or reports the encoding error without change. |
| FrameParsing.FrameParser.HandleNewChecksumBit | src/com/alanrussian/networkingproject/in/audio/frame/FrameParser.java:130-136 | Called once the payload is complete. A bit that differs from the expected checksum bit is the "Bad checksum" loss. Otherwise the checksum index advances by one. |
| FrameParsing.FrameParser.HandleNewFrameEndBit | src/com/alanrussian/networkingproject/in/audio/frame/FrameParser.java:141-147 | A bit that differs from the expected trailer bit is the "Bad end" loss. Otherwise the trailer index advances by one. |
| FrameWatching.Newest | src/com/alanrussian/networkingproject/in/audio/frame/FrameWatcher.java:113-123 | The window keeps n bits, or all of them when there are fewer. |
| FrameWatching.TrackerAdd | src/com/alanrussian/networkingproject/in/audio/frame/FrameWatcher.java:113-123 | The tracker after adding a bit is the newest six bits. It reports full exactly when it holds six. |
| FrameWatching.NewestAppend | src/com/alanrussian/networkingproject/in/audio/frame/FrameWatcher.java:113-123 | Windowing and then appending gives the same window as appending first. |
| FrameWatching.TrackerIsWindow | src/com/alanrussian/networkingproject/in/audio/frame/FrameWatcher.java:113-123 | After any bits, the tracker holds the newest six of everything seen. |
| FrameWatching.PackBits | src/com/alanrussian/networkingproject/in/audio/frame/FrameWatcher.java:95-102 | Packing makes one byte per eight bits, rounded up. |
| FrameWatching.PackBitsAt | src/com/alanrussian/networkingproject/in/audio/frame/FrameWatcher.java:95-102 | Bit i of the list is bit i mod 8 of byte i div 8, the order `BitSet` uses. |
| FrameWatching.TrimZeros | src/com/alanrussian/networkingproject/in/audio/frame/FrameWatcher.java:95-102 | `BitSet.toByteArray` keeps a prefix and drops only zero bytes. The last byte kept is not zero. |
| FrameWatching.BitListToBytes | src/com/alanrussian/networkingproject/in/audio/frame/FrameWatcher.java:95-102 | The `BitSet` loop computes the byte array. Each list bit can be found at its byte and position. There are at most ⌈n/8⌉ bytes, with no trailing zero byte. |
| FrameWatching.PreambleStartsFrame | src/com/alanrussian/networkingproject/in/audio/frame/FrameWatcher.java:64-74 | Outside a frame, the bit enters the six-bit window. A frame opens with a fresh parser exactly when the window equals the preamble. Nothing is delivered. |
| FrameWatching.InFrameBitGoesToParser | src/com/alanrussian/networkingproject/in/audio/frame/FrameWatcher.java:79-105 | Inside a frame, the bit goes to the parser. On success, the frame closes and its bytes are delivered exactly when the parser finishes. On a loss, the frame closes, nothing is delivered, and the bit enters the window. |
| FrameWatching.WatcherFeed | src/com/alanrussian/networkingproject/in/audio/frame/FrameWatcher.java:40-47 | Feeding bits delivers at most one byte array per bit. |
| FrameWatching.FeedWithAppend | src/com/alanrussian/networkingproject/in/audio/frame/FrameWatcher.java:40-47 | Folding any step over a + b is folding it over a then over b, with deliveries concatenated. |
| FrameWatching.WatcherFeedAppend | src/com/alanrussian/networkingproject/in/audio/frame/FrameWatcher.java:40-47 | Feeding a + b to a watcher is feeding a then b, with deliveries concatenated in order. |
| FrameWatching.WatcherFeedSnoc | src/com/alanrussian/networkingproject/in/audio/frame/FrameWatcher.java:40-47 | Feeding one more bit is one more watcher step. |
| FrameWatching.FrameWatcher.constructor | src/com/alanrussian/networkingproject/in/audio/frame/FrameWatcher.java:31-35 | Empty tracker, not in a frame, nothing delivered. |
| FrameWatching.FrameWatcher.AddBit | src/com/alanrussian/networkingproject/in/audio/frame/FrameWatcher.java:40-47 | The new fields are one watcher step from the old. The listener receives exactly the frame that step delivers, if any. |
| FrameWatching.FrameWatcher.AddBitRepeated | src/com/alanrussian/networkingproject/in/audio/frame/FrameWatcher.java:55-59 | The same as feeding `bitLength` copies of the bit, or none when `bitLength` is negative. |
| FrameWatching.FrameWatcher.AddRepeatedBit | src/com/alanrussian/networkingproject/in/audio/frame/FrameWatcher.java:55-59 | One turn of that loop moves the watcher from i to i + 1 copies fed. |
| FrameWatching.FrameWatcher.HandleNewBitWhileNotInFrame | src/com/alanrussian/networkingproject/in/audio/frame/FrameWatcher.java:64-74 | Takes the watcher step for a bit outside a frame and delivers nothing. |
| FrameWatching.FrameWatcher.HandleNewBitWhileInFrame | src/com/alanrussian/networkingproject/in/audio/frame/FrameWatcher.java:79-105 | Takes the watcher step for a bit inside a frame and delivers what it delivers. |
| FrameWatching.FrameWatcher.AddValueToTracker | src/com/alanrussian/networkingproject/in/audio/frame/FrameWatcher.java:113-123 | The tracker becomes the newest six bits. The result says whether it is full. |
| Frames.ManchesterEncode | src/com/alanrussian/networkingproject/out/audio/frame/Frame.java:57-68 | The encoding is twice as long as its input. |
| Frames.ManchesterEncodeAt | src/com/alanrussian/networkingproject/out/audio/frame/Frame.java:57-68 | Input bit k becomes output bits 2k and 2k+1: the bit, then its negation. |
| Frames.ManchesterEncodeAppend | src/com/alanrussian/networkingproject/out/audio/frame/Frame.java:57-68 | Encoding distributes over concatenation. |
| Frames.CreateOutput | src/com/alanrussian/networkingproject/out/audio/frame/Frame.java:57-68 | The loop computes the Manchester encoding. |
| Frames.BinaryDigits | src/com/alanrussian/networkingproject/out/audio/frame/Frame.java:81-84 | The halving digits read back as the number, with a leading one. |
| Frames.DigitsFit | src/com/alanrussian/networkingproject/out/audio/frame/Frame.java:73-92 | The digits of n fit in w bits exactly when n < 2^w. |
| Frames.PadFront | src/com/alanrussian/networkingproject/out/audio/frame/Frame.java:87-89 | Padding with leading zeros reaches at least `bits` bits and keeps the value. |
| Frames.BooleanListFromNumber | src/com/alanrussian/networkingproject/out/audio/frame/Frame.java:73-92 | The list reads back as the number and has at least `bits` bits. It has exactly `bits` bits when the number fits. |
| Frames.CreateBooleanListFromNumber | src/com/alanrussian/networkingproject/out/audio/frame/Frame.java:73-92 | Succeeds exactly when the fit check as written passes, with the padded digits. A negative number fails without a message. A number the check refuses fails with "Number cannot fit in given number of bits". |
| Frames.HalvingDigits | src/com/alanrussian/networkingproject/out/audio/frame/Frame.java:81-84 | The halving loop yields the binary digits. |
| Frames.PadWithFalse | src/com/alanrussian/networkingproject/out/audio/frame/Frame.java:87-89 | The padding loop yields the front-padded list. |
| Frames.FitGuardCounterexamples | src/com/alanrussian/networkingproject/out/audio/frame/Frame.java:74-77 | The check as written accepts 8 in 3 bits, which produces four bits. It rejects 1 in 1 bit, which fits. |
| Frames.NumberToBits | src/com/alanrussian/networkingproject/out/audio/frame/Frame.java:73-92 | Corrected conversion: succeeds exactly when 0 ≤ number < 2^bits, with exactly `bits` bits reading back as the number. |
| Frames.NumberToBitsInverse | src/com/alanrussian/networkingproject/out/audio/frame/Frame.java:73-92 | The corrected conversion inverts the frame parser's big-endian reading. |
| Frames.SizeFieldGuardPasses | src/com/alanrussian/networkingproject/out/audio/frame/DataFrame.java:29-37 | For every legal payload length, both the check as written and the intended check pass. |
| Frames.SizeField | src/com/alanrussian/networkingproject/out/audio/frame/DataFrame.java:29-37 | The size field is three bits that read back as the payload length. |
| Frames.PayloadBits | src/com/alanrussian/networkingproject/out/audio/frame/DataFrame.java:40-49 | Eight bits per payload byte. |
| Frames.PayloadBitAt | src/com/alanrussian/networkingproject/out/audio/frame/DataFrame.java:40-49 | Bit i is bit i mod 8 of byte i div 8, least significant first. |
| Frames.ByteArrayToBooleanList | src/com/alanrussian/networkingproject/out/audio/frame/DataFrame.java:40-49 | The nested loop computes the payload bits. |
| Frames.NewDataFrame | src/com/alanrussian/networkingproject/out/audio/frame/DataFrame.java:17-26 | A data frame is made exactly when the payload has at most seven bytes, and keeps the payload. Otherwise it is an argument error. The model's extra `target` argument is kept unchanged (see "## Left out"). |
| Frames.DataSignalsLength | src/com/alanrussian/networkingproject/out/audio/frame/DataFrame.java:29-37 | A data frame is 6 + 6 + 16n + 4 + 6 signals for n payload bytes. |
| Frames.AckSignalsShape | src/com/alanrussian/networkingproject/out/audio/frame/AckFrame.java:22-29 | An ACK is preamble, coded size zero and trailer: 18 signals. |
| Frames.TargetNotOnWire | src/com/alanrussian/networkingproject/out/audio/frame/Frame.java:24-28 | The target a frame is built with never changes its signals. |
| Frames.AudioPlayer.constructor | src/com/alanrussian/networkingproject/out/audio/AudioPlayer.java:30-36 | A new player has no queued segments. |
| Frames.AudioPlayer.Add | src/com/alanrussian/networkingproject/out/audio/AudioPlayer.java:54-56 | `add` queues exactly one segment at the end. |
| Frames.RunLength | src/com/alanrussian/networkingproject/out/audio/frame/Frame.java:130-152 | The opening run of a non-empty list has between 1 and all of its signals. |
| Frames.RunLengthMaximal | src/com/alanrussian/networkingproject/out/audio/frame/Frame.java:130-152 | The opening run is all one value, and the signal after it differs. |
| Frames.ExpandRuns | src/com/alanrussian/networkingproject/out/audio/frame/Frame.java:130-152 | Playing the segments back, signal by signal, gives exactly the frame's signals. |
| Frames.RunsWellFormed | src/com/alanrussian/networkingproject/out/audio/frame/Frame.java:130-152 | Segments alternate on and off, start with the first signal's value, and last a positive whole number of bit durations. |
| Frames.RunsDuration | src/com/alanrussian/networkingproject/out/audio/frame/Frame.java:130-152 | The durations add up to `BIT_DURATION` times the number of signals. |
| Frames.RunsUnique | src/com/alanrussian/networkingproject/out/audio/frame/Frame.java:130-152 | The segmentation is the only well-formed one with that playback. |
| Frames.RunsSnoc | src/com/alanrussian/networkingproject/out/audio/frame/Frame.java:130-152 | Appending a run of a new value adds exactly one segment. |
| Frames.CloseRun | src/com/alanrussian/networkingproject/out/audio/frame/Frame.java:143-149 | Closing a maximal run adds one segment of its length times `BIT_DURATION`. |
| Frames.PlayOutput | src/com/alanrussian/networkingproject/out/audio/frame/Frame.java:130-152 | The player receives exactly one segment per maximal run of the output, in order. |
| EndToEnd.ManchesterRoundTrip | src/com/alanrussian/networkingproject/in/audio/frame/ManchesterParser.java:31-43 | Decoding the Manchester encoding of any bits appends exactly those bits and leaves no bit pending. |
| EndToEnd.ManchesterAcceptsOnlyEncodings | src/com/alanrussian/networkingproject/in/audio/frame/ManchesterParser.java:31-43 | Raw bits that decode without error or pending bit are exactly the encoding of what they decode to. |
| EndToEnd.SizeSectionDecodes | src/com/alanrussian/networkingproject/in/audio/frame/FrameParser.java:110-118 | The coded size field of a legal length decodes back to that length. |
| EndToEnd.PackPayloadBits | src/com/alanrussian/networkingproject/in/audio/frame/FrameWatcher.java:95-102 | Packing the transmitted payload bits gives back the payload. |
| EndToEnd.PayloadToByteArray | src/com/alanrussian/networkingproject/in/audio/frame/FrameWatcher.java:95-102 | The receiver's byte array is the payload without trailing zero bytes. It is the payload itself when the last byte is not zero. |
| EndToEnd.SizeFieldParses | src/com/alanrussian/networkingproject/in/audio/frame/FrameParser.java:45-53 | A fresh parser reads the coded size field quietly and records the size. |
| EndToEnd.DataFrameParses | src/com/alanrussian/networkingproject/in/audio/frame/FrameParser.java:45-79 | A data frame of 1 to 7 bytes after the preamble parses without loss. The trailer's last bit finishes it. The finished frame's data is the payload bits and it is not an ACK. |
| EndToEnd.AckFrameParses | src/com/alanrussian/networkingproject/in/audio/frame/FrameParser.java:45-79 | An ACK parses without loss and finishes on its last bit, with empty data, as an ACK. |
| EndToEnd.EmptyDataFrameRejected | src/com/alanrussian/networkingproject/in/audio/frame/FrameParser.java:56-60 | A data frame with no payload announces size 0. Its first checksum bit then meets the trailer check and is lost as "Bad end". |
| EndToEnd.NoEarlyPreamble | src/com/alanrussian/networkingproject/in/audio/frame/FrameWatcher.java:64-74 | No proper prefix of the preamble completes a preamble window, whatever came before. |
| EndToEnd.PreambleDetected | src/com/alanrussian/networkingproject/in/audio/frame/FrameWatcher.java:64-74 | A watcher outside a frame that hears the preamble opens a frame with a fresh parser and delivers nothing. |
| EndToEnd.InFrameQuiet | src/com/alanrussian/networkingproject/in/audio/frame/FrameWatcher.java:79-105 | Inside a frame, a quiet run of bits only advances the parser. |
| EndToEnd.FinishingBit | src/com/alanrussian/networkingproject/in/audio/frame/FrameWatcher.java:79-105 | The bit that finishes the frame closes it and delivers its bytes. |
| EndToEnd.OutsideQuiet | src/com/alanrussian/networkingproject/in/audio/frame/FrameWatcher.java:64-74 | Outside a frame, bits that never complete a preamble window only slide the tracker. |
| EndToEnd.FeedThree | src/com/alanrussian/networkingproject/in/audio/frame/FrameWatcher.java:40-47 | Two quiet runs in front of a third leave what the third delivers. |
| EndToEnd.DataFrameDelivered | src/com/alanrussian/networkingproject/in/audio/frame/FrameWatcher.java:40-47 | The signals of a data frame of 1 to 7 bytes, heard outside a frame, deliver exactly one byte array: the payload without trailing zero bytes. This is the whole payload when its last byte is not zero. |
| EndToEnd.AckFrameDelivered | src/com/alanrussian/networkingproject/in/audio/frame/FrameWatcher.java:40-47 | The signals of an ACK deliver exactly one empty byte array. |
| EndToEnd.LosingBit | src/com/alanrussian/networkingproject/in/audio/frame/FrameWatcher.java:84-91 | A bit the parser rejects closes the frame, delivers nothing, and enters the tracker. |
| EndToEnd.EmptyDataFrameLost | src/com/alanrussian/networkingproject/out/audio/frame/DataFrame.java:17-26 | A data frame with an empty payload, which the constructor accepts, delivers nothing and leaves the watcher outside a frame. |
| AudioFrames.NewAudioFrame | src/com/alanrussian/networkingproject/out/audio/AudioFrame.java:23-32 | An audio frame is made exactly when the payload has at most seven bytes. Otherwise it is the argument error with its message. |
| AudioFrames.SendSignalsAreDataFrameSignals | src/com/alanrussian/networkingproject/out/audio/AudioFrame.java:42-51 | The signals `send` builds are those of a data frame with the same payload: 6 + 6 + 16n + 4 + 6 of them. |
| AudioFrames.Send | src/com/alanrussian/networkingproject/out/audio/AudioFrame.java:37-59 | The player receives exactly one segment per maximal run of the frame's signals. |
| AudioFrames.SentFrameReceived | src/com/alanrussian/networkingproject/out/audio/AudioFrame.java:37-59 | Playing back the segments gives the signals, and a watcher hearing them delivers the payload without trailing zero bytes. |
| AudioEncoding.CopyOfRange | src/com/alanrussian/networkingproject/out/audio/AudioEncoder.java:39-41 | `Arrays.copyOfRange` has the requested length. It copies the bytes in range and fills past the end with zeros. |
| AudioEncoding.ChunkLength | src/com/alanrussian/networkingproject/out/audio/AudioEncoder.java:36 | A chunk has 2 to 7 bytes: seven, or the remaining count plus one. |
| AudioEncoding.Send | src/com/alanrussian/networkingproject/out/audio/AudioEncoder.java:31-50 | The loop hands over the chunk sequence of the whole array. |
| AudioEncoding.ChunkSizes | src/com/alanrussian/networkingproject/out/audio/AudioEncoder.java:35-45 | Every chunk has 2 to 7 bytes, and all but the last have exactly seven. |
| AudioEncoding.ChunkCount | src/com/alanrussian/networkingproject/out/audio/AudioEncoder.java:35-45 | There are ⌈n/7⌉ chunks for n bytes. |
| AudioEncoding.SentChunksPad | src/com/alanrussian/networkingproject/out/audio/AudioEncoder.java:35-45 | The chunks, joined, are the data followed by one zero byte exactly when the length is not a multiple of seven. |
| AudioEncoding.OneByteSentPadded | src/com/alanrussian/networkingproject/out/audio/AudioEncoder.java:36 | A one-byte array is sent as the two-byte chunk [b, 0]. |
| AudioEncoding.IntendedChunksExact | src/com/alanrussian/networkingproject/out/audio/AudioEncoder.java:35-45 | Corrected chunking: the chunks, joined, are exactly the data, each with 1 to 7 bytes. |
| SignalParsing.Smooth | src/com/alanrussian/networkingproject/in/audio/AudioSignalParser.java:97-135 | Smoothing keeps the number of slices, and a list of fewer than three slices comes back unchanged. |
| SignalParsing.CreateSmoothenedArray | src/com/alanrussian/networkingproject/in/audio/AudioSignalParser.java:97-135 | The first-slice, middle-loop and last-slice code computes the smoothed list. |
| SignalParsing.SmoothIsMajority | src/com/alanrussian/networkingproject/in/audio/AudioSignalParser.java:106-132 | Each smoothed slice is the majority of the three-slice window around it, clamped at the two ends. |
| SignalParsing.SmoothKeepsRuns | src/com/alanrussian/networkingproject/in/audio/AudioSignalParser.java:97-135 | A slice that agrees with a neighbour survives smoothing. |
| SignalParsing.SmoothConstant | src/com/alanrussian/networkingproject/in/audio/AudioSignalParser.java:97-135 | A list of one value is left as it is. |
| SignalParsing.CountOns | src/com/alanrussian/networkingproject/in/audio/AudioSignalParser.java:66-69 | The count of on slices is at most the number of slices. |
| SignalParsing.CountOnsAppend | src/com/alanrussian/networkingproject/in/audio/AudioSignalParser.java:66-69 | Counting distributes over concatenation. |
| SignalParsing.PercentageIsVote | src/com/alanrussian/networkingproject/in/audio/AudioSignalParser.java:71 | The rounded share of on slices is 1 exactly when at least half are on, and 0 otherwise. |
| SignalParsing.ThresholdAlwaysMet | src/com/alanrussian/networkingproject/in/audio/AudioSignalParser.java:71-75 | Rounding makes the agreement test pass for every count. |
| SignalParsing.ParseVotes | src/com/alanrussian/networkingproject/in/audio/AudioSignalParser.java:59-91 | A bit is reported exactly when the buffer is full. It is on when at least half the smoothed slices are on. A buffer of any other size is kept. |
| SignalParsing.ParseResynchronises | src/com/alanrussian/networkingproject/in/audio/AudioSignalParser.java:78-87 | After a bit, at most the last two slices stay buffered. The dropped tail slices agree with the bit, and what stays starts with a slice that does not. |
| SignalParsing.BufferStaysShort | src/com/alanrussian/networkingproject/in/audio/AudioSignalParser.java:49-62 | With at least three slices per bit, the buffer never holds a full bit between calls. |
| SignalParsing.CleanBit | src/com/alanrussian/networkingproject/in/audio/AudioSignalParser.java:59-91 | A full buffer of one value reports that value and empties. |
| SignalParsing.TwoPerBitStalls | src/com/alanrussian/networkingproject/in/audio/AudioSignalParser.java:78-87 | At two slices per bit, off-then-on is reported and kept whole. Once the buffer holds more than two slices, no bit is reported again. |
| SignalParsing.HalfAgreementReported | src/com/alanrussian/networkingproject/in/audio/AudioSignalParser.java:71-75 | Four on then four off slices, at eight per bit, are reported as an on bit. |
| SignalParsing.IntendedVoteAgreement | src/com/alanrussian/networkingproject/in/audio/AudioSignalParser.java:73-75 | Corrected vote: on, off or no bit exactly by whether seven eighths of the slices agree. |
| SignalParsing.HalfAgreementNotIntended | src/com/alanrussian/networkingproject/in/audio/AudioSignalParser.java:73-75 | Half agreement yields no bit under the corrected vote. |
| SignalParsing.AudioSignalParser.constructor | src/com/alanrussian/networkingproject/in/audio/AudioSignalParser.java:38-42 | Empty buffer, nothing reported, slices per bit as given. |
| SignalParsing.AudioSignalParser.AddSignal | src/com/alanrussian/networkingproject/in/audio/AudioSignalParser.java:49-54 | The buffer and the reported bits become those of appending the slice and parsing. |
| SignalParsing.AudioSignalParser.ParseSignals | src/com/alanrussian/networkingproject/in/audio/AudioSignalParser.java:59-91 | The buffer becomes the parse result's buffer. The reported bit, if any, is appended to the bits handed to the listener. |
| SignalParsing.AudioSignalParser.RemoveFirst | src/com/alanrussian/networkingproject/in/audio/AudioSignalParser.java:84-86 | Removes exactly the first `count` slices. |
| SignalParsing.CountOnSignals | src/com/alanrussian/networkingproject/in/audio/AudioSignalParser.java:66-69 | The counting loop yields the number of on slices. |
| SignalParsing.FindChange | src/com/alanrussian/networkingproject/in/audio/AudioSignalParser.java:78-83 | The scan from the second-to-last slice stops at the first slice that differs from the bit. |
| RunningAverages.WindowFeedIsLatest | src/com/alanrussian/networkingproject/in/audio/math/RunningAverage.java:34-45 | After any additions, the window holds the newest `maximumNumbers` values. |
| RunningAverages.AverageAppend | src/com/alanrussian/networkingproject/in/audio/math/RunningAverage.java:44 | Appending x updates the mean as (mean · n + x) / (n + 1). |
| RunningAverages.AverageEvict | src/com/alanrussian/networkingproject/in/audio/math/RunningAverage.java:39 | Dropping the oldest value updates the mean as (mean · n − oldest) / (n − 1). |
| RunningAverages.AddKeepsAverage | src/com/alanrussian/networkingproject/in/audio/math/RunningAverage.java:34-45 | `add`'s constant-time update keeps the stored average equal to the true mean of the window, and the window within capacity. |
| RunningAverages.Variance | src/com/alanrussian/networkingproject/in/audio/math/RunningAverage.java:71-79 | The variance is defined exactly for a non-empty window, and is nonnegative. |
| RunningAverages.ConstantWindow | src/com/alanrussian/networkingproject/in/audio/math/RunningAverage.java:60-79 | A window of one value has that value as mean and zero variance. |
| RunningAverages.RunningAverage.constructor | src/com/alanrussian/networkingproject/in/audio/math/RunningAverage.java:16-21 | Empty window of the given capacity. |
| RunningAverages.RunningAverage.HaveAverage | src/com/alanrussian/networkingproject/in/audio/math/RunningAverage.java:26-28 | True exactly when the window holds `maximumNumbers` values, which is when the next `add` evicts the oldest value. Otherwise `add` only appends. |
| RunningAverages.RunningAverage.Add | src/com/alanrussian/networkingproject/in/audio/math/RunningAverage.java:34-45 | The window and stored average become the `add` step of the old ones. |
| RunningAverages.RunningAverage.Clear | src/com/alanrussian/networkingproject/in/audio/math/RunningAverage.java:50-53 | Empty window and average 0. |
| RunningAverages.RunningAverage.GetAverage | src/com/alanrussian/networkingproject/in/audio/math/RunningAverage.java:60-66 | Fails exactly on an empty window. Otherwise it is the mean of the window. |
| RunningAverages.RunningAverage.GetVariance | src/com/alanrussian/networkingproject/in/audio/math/RunningAverage.java:71-79 | The loop of squared differences, divided by the count, is the variance of the window. |
| AudioDecoding.PartitionsCover | src/com/alanrussian/networkingproject/in/audio/AudioDecoder.java:189-198 | The partitions start at 0 and each starts where the previous ends. The last one ends at the end of the sound. |
| AudioDecoding.PartitionWithin | src/com/alanrussian/networkingproject/in/audio/AudioDecoder.java:189-198 | Every partition lies within the sound. |
| AudioDecoding.PartitionMagnitudes | src/com/alanrussian/networkingproject/in/audio/AudioDecoder.java:181-204 | One magnitude per partition. |
| AudioDecoding.PartitionsConcatenate | src/com/alanrussian/networkingproject/in/audio/AudioDecoder.java:189-198 | The partitions, joined, are the whole sound. |
| AudioDecoding.EmptyPartitionIffShort | src/com/alanrussian/networkingproject/in/audio/AudioDecoder.java:189-198 | Some partition is empty exactly when the read has fewer bytes than there are partitions. |
| AudioDecoding.GetPartitionedFrequencyMagnitudes | src/com/alanrussian/networkingproject/in/audio/AudioDecoder.java:181-204 | The loop fills a new array with the magnitudes of the partitions. It throws at the first empty partition, which happens exactly when the read is shorter than the partition count. |
| AudioDecoding.WithinAverageSquared | src/com/alanrussian/networkingproject/in/audio/math/Statistics.java:12-19 | For a nonnegative deviation, the test agrees with comparing squared distance against the squared bound. |
| AudioDecoding.ClassifyAtOrBelowLow | src/com/alanrussian/networkingproject/in/audio/AudioDecoder.java:144-166 | With the means in order, a magnitude at or below the low mean is off. |
| AudioDecoding.ClassifyAtOrAboveHigh | src/com/alanrussian/networkingproject/in/audio/AudioDecoder.java:144-166 | With the means in order, a magnitude at or above the high mean is on. |
| AudioDecoding.ClassifyFarFromBoth | src/com/alanrussian/networkingproject/in/audio/AudioDecoder.java:160-165 | Outside both deviation bands, a magnitude is on exactly when it is strictly nearer the high mean. |
| AudioDecoding.DecoderStep | src/com/alanrussian/networkingproject/in/audio/AudioDecoder.java:134-175 | One magnitude keeps the decoder's invariant: the windows hold at most eight values and are equal until full, and the slice buffer stays below eight. |
| AudioDecoding.DecodeAll | src/com/alanrussian/networkingproject/in/audio/AudioDecoder.java:134-175 | The invariant holds after any number of magnitudes. |
| AudioDecoding.WarmUpStep | src/com/alanrussian/networkingproject/in/audio/AudioDecoder.java:137-142 | Before the windows are full, a magnitude goes into both and reaches no parser. |
| AudioDecoding.ClassifiedStep | src/com/alanrussian/networkingproject/in/audio/AudioDecoder.java:144-174 | Once full, the classified magnitude goes into the high window if on and the low window if off, evicting the oldest. The slice goes to the signal parser. |
| AudioDecoding.ReceivedGrowsByAtMostOnePerMagnitude | src/com/alanrussian/networkingproject/in/audio/AudioDecoder.java:134-175 | Bits are only appended, at most one per magnitude. |
| AudioDecoding.FirstMagnitudesWarmUp | src/com/alanrussian/networkingproject/in/audio/AudioDecoder.java:137-142 | From a fresh decoder, the first eight magnitudes fill both windows, in order, and nothing else happens. |
| AudioDecoding.AudioDecoder.constructor | src/com/alanrussian/networkingproject/in/audio/AudioDecoder.java:96-100 | Two empty windows of eight and a signal parser of eight slices per bit. |
| AudioDecoding.ProcessSoundStep | src/com/alanrussian/networkingproject/in/audio/AudioDecoder.java:117-133 | `processSound` throws exactly on a non-empty read with an empty partition (1 to 7 bytes), and otherwise keeps the decoder invariant. |
| AudioDecoding.AudioDecoder.ProcessSound | src/com/alanrussian/networkingproject/in/audio/AudioDecoder.java:117-176 | It throws exactly when `ProcessSoundStep` fails, and then the state is unchanged. Otherwise the state becomes the step for the sound: nothing for empty input, and one decoder step per partition magnitude, in order. |
| AudioDecoding.AudioDecoder.HandleMagnitude | src/com/alanrussian/networkingproject/in/audio/AudioDecoder.java:134-175 | One loop turn is one decoder step. |
| AudioDecoding.AudioDecoder.Decide | src/com/alanrussian/networkingproject/in/audio/AudioDecoder.java:144-166 | The decision agrees with the classification on the current windows. |
| Waves.SampleCountTruncates | src/com/alanrussian/networkingproject/out/audio/wave/EmptyWave.java:21-23 | The buffer length truncates the rate to whole thousands before multiplying, so it never exceeds rate × duration / 1000. |
| Waves.EmptyData | src/com/alanrussian/networkingproject/out/audio/wave/EmptyWave.java:21-23 | The empty wave is that many zero samples. |
| Waves.EmptyWave.GetData | src/com/alanrussian/networkingproject/out/audio/wave/EmptyWave.java:21-23 | A new array of the empty wave's samples. |
| Waves.EmptyWaveInstance.constructor | src/com/alanrussian/networkingproject/out/audio/wave/EmptyWave.java:8 | No instance yet. |
| Waves.EmptyWaveInstance.GetInstance | src/com/alanrussian/networkingproject/out/audio/wave/EmptyWave.java:12-18 | The first call creates the instance, and later calls return that same instance. |
| Waves.SumAtBounds | src/com/alanrussian/networkingproject/out/audio/wave/MixedWave.java:34-40 | The sum at a sample lies between n·lo and n·hi when every wave's sample does. |
| Waves.TruncatedQuotientBounds | src/com/alanrussian/networkingproject/out/audio/wave/MixedWave.java:41 | Truncating division of a sum within [n·lo, n·hi] by n lands in [lo, hi]. |
| Waves.MixedSampleBounds | src/com/alanrussian/networkingproject/out/audio/wave/MixedWave.java:34-42 | A mixed sample lies within the range of its inputs, so the cast to byte never wraps. |
| Waves.MixedData | src/com/alanrussian/networkingproject/out/audio/wave/MixedWave.java:23-45 | The mixed buffer has the requested sample count. |
| Waves.MixedSingle | src/com/alanrussian/networkingproject/out/audio/wave/MixedWave.java:34-42 | Mixing one wave returns it. |
| Waves.MixedWithEmpty | src/com/alanrussian/networkingproject/out/audio/wave/MixedWave.java:34-42 | Mixing with silence halves each sample, rounding toward zero. |
| Waves.MixedGetData | src/com/alanrussian/networkingproject/out/audio/wave/MixedWave.java:23-45 | The nested loop fills a new array with the mixed samples. |

## Left out

- The frequency magnitude (`SoundMath.getMagnitudeOfFrequency`, the magnitude of one FFT bin computed with JTransforms) and `Math.sqrt` are function parameters of the decoder. Nothing is assumed about their values. The one failure of the magnitude that the decoder can reach, on an empty partition, is modelled as the `EmptyPartition` error of `AudioDecoding.ProcessSoundStep`.
- `SineWave`, `Launcher`, `Input`, `Output` and the input and output redirectors are not part of this model. Neither are the microphone line, the speaker line, `AudioPlayer.play` and `Frame.playSound`'s device handling, the scheduled executor, threads and thread priority.
- The listeners are modelled as logs: the bits `AudioSignalParser` reports, the frames `FrameWatcher` delivers, and the segments `AudioPlayer.add` queues. A segment records on/off and duration instead of the wave's bytes.
- AudioDecoding.AudioDecoder.ProcessSound: the bits the signal parser reports are logged rather than forwarded to `frameWatcher.addBit` (`handleBitReceived`). The frame watcher on its own is modelled completely in `FrameWatching`, and the two halves are not composed in one object. When a read of 1 to 7 bytes throws, the model reports `thrown` and leaves the state as it was. That the scheduled executor then stops running `processSound` is not modelled.
- Doubles are modelled as exact reals, so rounding error in the running average's constant-time update is not modelled. Java `int` overflow is not modelled. Sizes and sample rates are `nat`.
- SignalParsing.AudioSignalParser.constructor requires at least two slices per bit. With one, the resynchronisation scan starts at index −1 and throws.
- RunningAverages.RunningAverage.constructor requires a capacity of at least two. A capacity of one divides by zero on eviction, and a capacity of zero removes from an empty list.
- RunningAverages.RunningAverage.GetVariance returns the variance; the source's `getStandardDeviation` returns its square root. That square root is the parameter `sqrt` wherever the decoder uses it.
- FrameParsing.FrameParser.HandleNewDataBit requires an incomplete payload, and FrameParsing.FrameParser.HandleNewChecksumBit a complete one. These private helpers are called only from `addBit`, in exactly those states. Called elsewhere, they would break the parser's invariant.
- FrameParsing.FrameParser.AddBit requires an unfinished frame. On a finished frame the source would index past the trailer. `FrameWatcher` never calls it there.
- `Frame`'s only constructor takes a target (`Frame(int target, Wave waveOff, Wave waveOn)`, Frame.java:24), but `DataFrame(Wave, Wave, byte[])` (DataFrame.java:17-18) and `AckFrame(Wave, Wave)` (AckFrame.java:14-15) take none and call `super(waveOff, waveOn)`, which matches no `Frame` constructor, so these classes do not compile as written. The model gives the `DataFrame` and `AckFrame` constructors a `target` argument that neither Java constructor has, and so does `Frames.NewDataFrame`; the target is a field that `getTarget` would return and that never reaches the signals (`Frames.TargetNotOnWire`).
- `AudioFrame.createOutput`, `createBooleanListFromNumber`, `byteArrayToBooleanList` and `playOutput` are copies of the `Frame` and `DataFrame` helpers. They are modelled once, in `Frames`, and `AudioFrames` uses them.
- `MixedWave` takes its component waves lazily as objects. The model takes their sample buffers, as `seq<int8>`. Mixing zero waves gives the 0 that the cast of NaN yields, stated directly rather than through floating point.
- The frame signals carry no source or target ids: they are preamble, size, payload, checksum and trailer.
- The signal parser always reports a bit once its buffer is full (see Findings).
- The frame watcher delivers an ACK as an empty byte array, not as a separate event.
- Source and target ids, carrier sensing, collision handling and retransmission are not in the code modelled here, so they are not modelled.

## Findings

| source | as written | input that shows it | evidently intended | confidence | as-written member | corrected member |
|---|---|---|---|---|---|---|
| src/com/alanrussian/networkingproject/out/audio/frame/Frame.java:75-77 | The fit check compares the number with `Math.pow(bits, 2) - 1`, which is bits² − 1. | number 8 with bits 3 passes and yields four bits; number 1 with bits 1 is rejected. | Accept exactly 0 ≤ number < 2^bits and return exactly `bits` bits. | not executed | Frames.FitGuardCounterexamples | Frames.NumberToBitsInverse |
| src/com/alanrussian/networkingproject/out/audio/AudioEncoder.java:36 | Each chunk is min(7, remaining + 1) bytes long, so `copyOfRange` pads the last chunk with a zero byte. | The one-byte array [b] is sent as [b, 0], and the receiver cannot tell the zero from data. | Chunks of min(7, remaining) bytes whose concatenation is exactly the data. | not executed | AudioEncoding.OneByteSentPadded | AudioEncoding.IntendedChunksExact |
| src/com/alanrussian/networkingproject/in/audio/AudioSignalParser.java:71-75 | The share of on slices is rounded to 0 or 1 before it is compared with 7/8, so the comparison always passes and the else branch is dead. | Four on and four off slices at eight per bit are reported as an on bit. | Report a bit only when at least seven eighths of the smoothed slices agree. | not executed | SignalParsing.HalfAgreementReported | SignalParsing.IntendedVoteAgreement |
