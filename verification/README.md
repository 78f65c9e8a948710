# mediaExample sample programs, modelled in Dafny

This project models the caller-side logic of the Android/Rockchip media sample
programs in `mediaExample`:

- **`native_dec_test`** decodes an H.264 file through Android's `MediaCodec`. It reads either raw
  1000-byte chunks or the samples of the first video track of a container file.
- **`native_enc_test`** encodes a raw YUV420 semi-planar file through `MediaCodec`.
- **`rkvpu_enc_test`** encodes through the Rockchip VPU wrapper `RKHWEncApi`. The wrapper itself is
  modelled as a class with its own fields.
- **`rkvpu_dec_test`** decodes through the Rockchip decoder wrapper.
- **`native_mediaplayer`** plays a video on a surface placed in a 2 × 4 grid over the display.

The codecs, the extractor, the display and the media player service are foreign code. Each codec
is a *scripted oracle*: a sequence with one entry per round of a pump loop, holding the codec's
answers for that round. Every loop runs at most one round per entry. When the script runs out
first, the loop ends with `ScriptExhausted`. Files are byte sequences, and `fread` and `feof` are
modelled for a stream without read errors (`Stdio.Fread`): a read comes back short only at end of
file. What a program does with the answers is recorded as values:
- the buffers it queued or frames it sent;
- the releases it made;
- the bytes it wrote.

The contracts then state what the loops promise about those values. Each contract is
given in terms of an independent description of the input file and of the script.

Modules:
- **Outcomes:** option and run-outcome types.
- **Stdio:** `fread` and the chunk-reading cursor shared by every raw loop.
- **Cli:** options after `getopt_long`.
- **MediaCodecApi:** the `MediaCodec` oracle and the shared raw-input half of a round.
- **NativeDecTest** and **NativeEncTest.**
- **RkvpuEncApi:** the header and the `RKHWEncApi` class.
- **RkvpuEncTest**, **RkvpuDecTest** and **NativeMediaPlayer.**

## Model

| member | source | states |
|---|---|---|
| `Stdio.Fread` | native-codec/native_dec_test.cpp:303-311 | A read returns the next bytes of the file, at most `n` of them, and fewer only at end of file. The loops' end-of-input test (short read and `feof`) holds exactly when fewer than `n` bytes were left. |
| `Stdio.ReadStep` | native-codec/native_dec_test.cpp:303-311 | A read taken once the last chunk was accepted keeps the reader invariant. Either the next full chunk is pending, or end of input is noted with the short tail held. |
| `Stdio.QueueStep` | native-codec/native_dec_test.cpp:318-332 | Accepting the pending chunk moves the cursor past one more full chunk. |
| `Stdio.ChunksArePrefix` | native-codec/native_dec_test.cpp:302-333 | The full chunks handed over, concatenated in order, are exactly the file's prefix of that many chunks. |
| `Stdio.TailIsRemainder` | native-codec/native_dec_test.cpp:305-308 | When end of input is seen after `q` full chunks, `q` is the file size divided by the chunk size, and what is left is the remainder. |
| `Cli.LastNoneIffAbsent` | native-codec/native_dec_test.cpp:127-158 | A field the option switch overwrites keeps its initial value exactly when no option of its kind was given. |
| `Cli.LastIsLatest` | native-codec/native_dec_test.cpp:127-158 | The value a field ends with comes from an option of its kind that no later option overrides. |
| `Cli.LastStep` | native-codec/native_dec_test.cpp:127-158 | One more round of the switch updates the field exactly as the next option says. |
| `MediaCodecApi.UnitsAreTheFilledBuffers` | native-codec/native_dec_test.cpp:366-388 | The filled buffers counted by the drain side are exactly the `OK` output events, each as many times as it occurred. None is dropped and nothing else is counted. |
| `MediaCodecApi.LastChangeWins` | native-codec/native_dec_test.cpp:389-394 | The cached output-buffer vector is the one delivered by the last `INFO_OUTPUT_BUFFERS_CHANGED`, or the initial one when there was none. |
| `MediaCodecApi.RawInputHalf` | native-codec/native_dec_test.cpp:303-356 | Input half of a raw round. A read happens exactly when end of input was not seen and no chunk is pending. What it queues is exactly what `RawFeedStep` calls for given the codec's reply: the next full chunk in the offered slot while one is left, else the empty EOS buffer once. It fails a CHECK exactly when the dequeue failed while a chunk (or, where that is checked, the EOS buffer) was due, and indexes out of range exactly when the offered slot is outside the input-buffer vector. |
| `MediaCodecApi.RawSubmissionsAreFeed` | native-codec/native_dec_test.cpp:302-356 | Whatever the codec answers, the buffers its answers call for are a raw feed of the file: whole chunks in file order, then at most one EOS buffer, last. |
| `MediaCodecApi.RawSubmissionsUseEveryOffer` | native-codec/native_dec_test.cpp:302-356 | Every slot the codec offers before EOS is used: after `n` offered slots, `n` buffers were queued, or all `size / chunk` full chunks plus the EOS buffer when that is fewer. |
| `MediaCodecApi.RawFeedDropsTail` | native-codec/native_dec_test.cpp:305-313 | The bytes a raw loop queues are the file's prefix of whole chunks. Once EOS is queued, the trailing `size % chunk` bytes were read but never queued. |
| `NativeDecTest.WalkKeepsLast` | native-codec/native_dec_test.cpp:121-158 | After the option loop, each field holds the last value given for it. `--t 2` selects container input and anything else raw input. |
| `NativeDecTest.ParseArgs` | native-codec/native_dec_test.cpp:110-181 | Returns `OK` exactly when every option is known, none is `--u`, and an input path is given. On success the fields are the last given values, and rendering is on exactly when no output path was given. |
| `NativeDecTest.SelectVideoTrack` | native-codec/native_dec_test.cpp:201-226 | The selected track is the first whose mime type starts with `video/`, ignoring case. There is none exactly when no track is a video track. |
| `NativeDecTest.DrainOnce` | native-codec/native_dec_test.cpp:358-402 | One output event: a filled buffer is counted, released once (rendered when there is a surface) and written only without a surface, and its EOS flag is latched. A buffers-changed event replaces the vector, and a format change changes nothing. Any other status is a CHECK failure. |
| `NativeDecTest.DrainedStep` | native-codec/native_dec_test.cpp:358-405 | One more drained output event extends the running account of counts, releases, writes and the cached vector by that event alone. |
| `NativeDecTest.RawRound` | native-codec/native_dec_test.cpp:302-406 | One round of the raw loop keeps the loop invariant, with the queued buffers those the replies of the completed rounds call for. It fails a CHECK exactly when `RawRoundChecks` holds for the round and indexes out of range exactly when `RawRoundUndefined` does; such a round ends the run unrecorded. Otherwise it stops exactly when an output buffer carried EOS. |
| `NativeDecTest.RawDecodeLoop` | native-codec/native_dec_test.cpp:302-406 | Every completed round went through, and the loop ends at the first EOS-flagged output buffer, at the first round whose replies fail a CHECK or index out of range, or when the script runs out. What it queued is exactly what the replies call for, a raw feed of the file. Every output event of the rounds run is accounted for. |
| `NativeDecTest.DecRunRawInput` | native-codec/native_dec_test.cpp:271-422 | `BAD_VALUE` exactly when the input cannot be opened, or there is no surface and the output cannot be created; nothing runs then. Otherwise the loop's guarantees hold (every completed round went through, an abort comes from the round whose condition holds, the queued buffers are those the replies call for) and the function returns `OK`. |
| `NativeDecTest.ExtractorInputHalf` | native-codec/native_dec_test.cpp:440-498 | Input half of a container round. What it queues, and whether it notes end of input, is exactly what `SampleFeedStep` calls for given the reply: the next sample with its own timestamp while samples remain, a round that asks the codec for nothing once they run out, then the empty EOS buffer once. It fails a CHECK exactly when the dequeue failed while a sample or the EOS buffer was due, and indexes out of range exactly when the offered slot is outside the vector. |
| `NativeDecTest.SampleSubmissionsAreFeed` | native-codec/native_dec_test.cpp:440-498 | Whatever the codec answers, the buffers its answers call for are the samples in order with their timestamps, then at most one EOS buffer after the last one, and only once end of input was noted. |
| `NativeDecTest.ExtractorRound` | native-codec/native_dec_test.cpp:440-548 | One container round keeps the loop invariant. It fails a CHECK exactly when `ExtractorRoundChecks` holds and indexes out of range exactly when `ExtractorRoundUndefined` does, ending the run unrecorded; otherwise it stops exactly on output EOS. |
| `NativeDecTest.ExtractorLoop` | native-codec/native_dec_test.cpp:440-548 | Every completed round went through, and an abort comes from the round whose condition holds. The queued buffers are exactly those the replies call for: the samples in order with their timestamps, then at most one EOS buffer after the last one. The extractor stands past the queued samples, and the drain side is fully accounted for. |
| `NativeDecTest.DecRunExtractor` | native-codec/native_dec_test.cpp:424-559 | Every exit returns `OK`, including a failed output open, which runs nothing. Otherwise the loop's guarantees hold: no completed round aborted, an abort is the round's own, and the queued buffers are those the replies call for. |
| `NativeEncTest.WalkOkIff` | native-codec/native_enc_test.cpp:128-170 | The option loop gets through exactly when every round's check passes. |
| `NativeEncTest.WalkFailureSticks` | native-codec/native_enc_test.cpp:128-170 | Once a round returns `BAD_VALUE`, so does the whole loop. |
| `NativeEncTest.WalkPaths` | native-codec/native_enc_test.cpp:138-153 | After the loop, the paths are the last `--i` and `--o` given. |
| `NativeEncTest.WalkStreams` | native-codec/native_enc_test.cpp:138-153 | After the loop, the streams are the ones the last `--i` and `--o` opened. |
| `NativeEncTest.WalkSizes` | native-codec/native_enc_test.cpp:154-159 | Width and height are the last given, stored as `uint32_t`. |
| `NativeEncTest.WalkRates` | native-codec/native_enc_test.cpp:160-165 | Bit rate and frame rate are the last given, stored as `uint32_t`. |
| `NativeEncTest.InputGivenIsLast` | native-codec/native_enc_test.cpp:138-145 | Some `--i` was given exactly when a last one exists. |
| `NativeEncTest.SetupAcceptsIff` | native-codec/native_enc_test.cpp:109-201 | Corrected `--o` check. Setup succeeds exactly when: every option is known and not `--u`; every `--i` opens; every `--o` can be created; both paths are given; the final width and height are non-zero. |
| `NativeEncTest.AsWrittenAcceptsIff` | native-codec/native_enc_test.cpp:146-153 | As written, setup succeeds exactly when every `--o` comes after some `--i` and the last `--o` can be created, plus the other conditions. |
| `NativeEncTest.OutputBeforeInputRejected` | native-codec/native_enc_test.cpp:149 | `--o out --i in --w 16 --h 16` is rejected as written and accepted with the corrected check. |
| `NativeEncTest.SetupDefaults` | native-codec/native_enc_test.cpp:172-187 | A successful setup holds the last files and sizes. A zero bit rate becomes 3000000 and a zero frame rate 30. `frameCount` is 0, the input is YUV420 semi-planar, `IDRInterval` is 1 and the timeout is 20000. |
| `NativeEncTest.ParseArgs` | native-codec/native_enc_test.cpp:109-201 | `OK` exactly when the corrected setup succeeds, and the record is that setup's. |
| `NativeEncTest.PacketSizeIsFrameSize` | native-codec/native_enc_test.cpp:259 | Without wrap-around, the chunk is exactly `width*height*3/2` bytes. |
| `NativeEncTest.PacketSizeWraps` | native-codec/native_enc_test.cpp:259 | The `uint32_t` product wraps: a 65536 × 65536 frame gives a chunk size of 0. |
| `NativeEncTest.EncDrainOnce` | native-codec/native_enc_test.cpp:303-336 | One output event: a filled buffer is written, its EOS flag latched, `frameCount` incremented modulo 2^32 and the buffer released once. Buffers-changed replaces the vector. An unexpected status is a CHECK failure. |
| `NativeEncTest.EncDrainedStep` | native-codec/native_enc_test.cpp:303-336 | One more output event extends the running account (count modulo 2^32, releases, bytes, vector, output EOS) by that event alone. |
| `NativeEncTest.EncRound` | native-codec/native_enc_test.cpp:262-340 | One round keeps the loop invariant, with the queued buffers those the replies call for. A failed dequeue in the EOS branch is not checked. It fails a CHECK exactly when `EncRoundChecks` holds and indexes out of range exactly when `EncRoundUndefined` does, ending the run unrecorded. Otherwise it returns 0 exactly when, after it, the EOS buffer is queued and an output buffer carried EOS. |
| `NativeEncTest.EncodeRun` | native-codec/native_enc_test.cpp:249-343 | The loop returns 0 in the first round after which the EOS buffer is queued and an output buffer carried EOS; no earlier round met that or aborted, and an abort is the round's own. The input side is exactly what the replies call for: whole frames of the file in order, the short tail never queued, EOS once and last. Every output event is accounted for. |
| `RkvpuEncApi.VpuRet.Code` | rkvpu-codec/rkvpu_enc_api.h:28-39 | `VPU_OK` is 0, and exactly it is; every other code is negative. |
| `RkvpuEncApi.FromCode` | rkvpu-codec/rkvpu_enc_api.h:28-39 | Decoding a status code gives back a status with that code. |
| `RkvpuEncApi.CodesAreDistinct` | rkvpu-codec/rkvpu_enc_api.h:28-39 | Decoding inverts `Code`. No two statuses share a code, so callers can tell `VPU_EAGAIN` from `VPU_EOS_STREAM_REACHED`. |
| `RkvpuEncApi.EncRcMode.Value` | rkvpu-codec/rkvpu_enc_api.h:42-46 | The rate-control values lie in 0..2. |
| `RkvpuEncApi.RcModeOf` | rkvpu-codec/rkvpu_enc_api.h:42-46 | An `rc_mode` integer names a mode exactly when it is 0, 1 or 2, and that mode has that value. |
| `RkvpuEncApi.RcModeRoundTrip` | rkvpu-codec/rkvpu_enc_api.h:42-46 | Each mode's value decodes back to the mode. |
| `RkvpuEncApi.EncParamsDerivation` | rkvpu-codec/rkvpu_enc_api.cpp:126-147 | `prepare`'s parameters: size, format, rate, `rc_mode` and `qp` are copied, and the GOP length is `IDRInterval*framerate`. CABAC is off. AVC gets profile 66 and level 41, HEVC gets profile 66 and level 0, and any other coding gets 0/0. |
| `RkvpuEncApi.FramePacketSize` | rkvpu-codec/rkvpu_enc_api.cpp:243-257 | An AVC packet is the optional SPS/PPS header, then `00 00 00 01`, then the payload, and its length counts all three. Any other coding passes the payload through. |
| `RkvpuEncApi.StreamAppend` | rkvpu-codec/rkvpu_enc_api.cpp:243-264 | The stream after one more packet is the stream so far followed by that packet, framed at the next frame index. |
| `RkvpuEncApi.AvcStreamAfterFirst` | rkvpu-codec/rkvpu_enc_api.cpp:245-254 | After the first frame, an AVC stream is plain Annex B: each payload behind a start code. |
| `RkvpuEncApi.AvcStreamIsHeaderThenAnnexB` | rkvpu-codec/rkvpu_enc_api.cpp:243-257 | From frame 0, a non-empty AVC stream is the SPS/PPS header once, followed by the Annex B byte stream of the payloads (ITU-T H.264 Annex B). |
| `RkvpuEncApi.OtherStreamIsPayloads` | rkvpu-codec/rkvpu_enc_api.cpp:255-257 | For other codings, the stream is the payloads concatenated. |
| `RkvpuEncApi.RKHWEncApi.constructor` | rkvpu-codec/rkvpu_enc_api.cpp:69-79 | A fresh wrapper has the gate closed, frame count 0, no SPS/PPS and no parameters. |
| `RkvpuEncApi.RKHWEncApi.Prepare` | rkvpu-codec/rkvpu_enc_api.cpp:102-191 | `VPU_OK` exactly when open and init succeed; otherwise `VPU_ERR_INIT`, and a failed open changes nothing. The parameters are derived from the configuration. SPS/PPS is kept only for AVC with extradata under 2048 bytes, and cleared for other codings. Only success opens the gate and records the coding. |
| `RkvpuEncApi.RKHWEncApi.SendFrame` | rkvpu-codec/rkvpu_enc_api.cpp:193-226 | `VPU_ERR_UNKNOW` with nothing submitted while the gate is closed. Otherwise the frame is submitted with the `pts` only when positive, and a flagged empty frame goes out as size 1. The result is `VPU_ERR_UNKNOW` on a negative vendor result, `VPU_EAGAIN` while input remains, else `VPU_OK`. |
| `RkvpuEncApi.RKHWEncApi.GetOutStream` | rkvpu-codec/rkvpu_enc_api.cpp:228-272 | `VPU_ERR_UNKNOW` while the gate is closed. `VPU_EOS_STREAM_REACHED` on a negative result or size 0, and `VPU_EAGAIN` on a negative size; neither changes the state. On `VPU_OK`, the packet is framed by `FramePacket` at the current frame index, its size counts the start code and the first-frame header, and the frame count rises by one. |
| `RkvpuEncTest.ParseArgs` | rkvpu-codec/rkvpu_enc_test.cpp:99-178 | `VPU_OK` exactly when every option is in the table (which has no `--b`/`--f`), none is `--u`, an input is given, and the last width and height are positive. On success the fields are the last given values, the rates are always the defaults 3000000 and 30, and the count is 0. |
| `RkvpuEncTest.PktSize` | rkvpu-codec/rkvpu_enc_test.cpp:192-198 | The chunk size for the input format is positive when defined. It is undefined (signed overflow) exactly when the product does not fit `int32_t`. |
| `RkvpuEncTest.PktSizeIsOnePicture` | rkvpu-codec/rkvpu_enc_test.cpp:192-193 | For YUV420 semi-planar input with even sizes, the chunk is one luma plane plus two quarter-size chroma planes. |
| `RkvpuEncTest.MainConfigParams` | rkvpu-codec/rkvpu_enc_test.cpp:297-313 | `main`'s configuration makes `prepare` choose Baseline profile and level 4.1 (ITU-T H.264 Annex A), CBR, QP 20, a one-second GOP and YUV420 semi-planar input. |
| `RkvpuEncTest.VpuFeedCoversFile` | rkvpu-codec/rkvpu_enc_test.cpp:219-246 | Once the flagged last frame is accepted, the frames sent give back the whole file in order, including the short tail. That last frame's size exceeds its bytes by one exactly when the file is a whole number of chunks. |
| `RkvpuEncTest.VpuSubmissionsAreFeed` | rkvpu-codec/rkvpu_enc_test.cpp:219-246 | Whatever the encoder answers, the frames its answers accept are a feed of the file: full chunks in order, unflagged and without timestamp, then at most one flagged last frame holding the rest. |
| `RkvpuEncTest.InputHalf` | rkvpu-codec/rkvpu_enc_test.cpp:219-246 | Input half of a round. A read happens exactly when end of input was not seen and the last chunk was accepted. With the wrapper initialised, the frames accepted grow exactly as `VpuFeedStep` says for the reply: one frame exactly when the feed is unfinished and the encoder took all of it; a refused frame is resent; after end of input the last read is sent flagged until accepted once, then never again. |
| `RkvpuEncTest.OutputHalf` | rkvpu-codec/rkvpu_enc_test.cpp:248-263 | Each `VPU_OK` packet is counted once and, with an output file, written framed. The half stops exactly on `VPU_EOS_STREAM_REACHED`. |
| `RkvpuEncTest.EncodeRound` | rkvpu-codec/rkvpu_enc_test.cpp:218-264 | One round keeps the loop state, in which the frames accepted are those the send replies call for and the packets taken are the script's. It stops exactly on an end-of-stream reply to an initialised wrapper. |
| `RkvpuEncTest.EncodeLoop` | rkvpu-codec/rkvpu_enc_test.cpp:218-264 | The loop ends exactly at the first end-of-stream reply. The frames accepted are exactly those the send replies call for (none with the wrapper uninitialised) and form a feed of the file. The packets fetched are the script's packets before the end, counted, and written as the framed stream. |
| `RkvpuEncTest.RunEncoder` | rkvpu-codec/rkvpu_enc_test.cpp:180-278 | The chunk size is undefined exactly on overflow, and `VPU_ERR_INIT` comes exactly on a failed open; nothing runs then. Otherwise the loop stops at the first end-of-stream reply, the frames accepted are those the send replies call for, the frame count and the written stream hold as for the loop, and `numBuffersEncoded` grows by the packets. |
| `RkvpuEncTest.EncTestMain` | rkvpu-codec/rkvpu_enc_test.cpp:280-335 | Exit 1 on a bad command line, a failed `prepare`, or (once both succeed and the frame size is defined) a missing input file or an output file that cannot be created. Exit 0 only when the input exists, the `--o` file could be created, and the loop stopped at the first end-of-stream reply having fetched every packet before it; the output file is then the kept SPS/PPS header followed by the Annex B stream of those packets. |
| `RkvpuDecTest.CodingOf` | rkvpu-codec/rkvpu_dec_test.cpp:139-145 | `--t 2` selects HEVC; any other value, or none, selects AVC. |
| `RkvpuDecTest.ParseArgs` | rkvpu-codec/rkvpu_dec_test.cpp:96-167 | `VPU_OK` exactly when every option is known, none is `--u`, and an input is given. On success the fields are the last given values, sizes default to 0, coding follows `CodingOf`, and the count is 0. |
| `RkvpuDecTest.DecFeedData` | rkvpu-codec/rkvpu_dec_test.cpp:211-214 | An accepted data chunk extends the feed and clears the pending chunk. |
| `RkvpuDecTest.DecFeedRefused` | rkvpu-codec/rkvpu_dec_test.cpp:211-218 | A refused data chunk stays pending and is resent. |
| `RkvpuDecTest.DecFeedEos` | rkvpu-codec/rkvpu_dec_test.cpp:219-226 | A flagged send after end of input, accepted or not, keeps the feed. There is no once-only guard. |
| `RkvpuDecTest.DecFeedRead` | rkvpu-codec/rkvpu_dec_test.cpp:202-209 | A read taken once the last chunk was accepted keeps the feed. |
| `RkvpuDecTest.DecFeedCoversFile` | rkvpu-codec/rkvpu_dec_test.cpp:201-226 | Once a flagged send went out, the accepted data chunks followed by its tail are the whole file. |
| `RkvpuDecTest.DecInputHalf` | rkvpu-codec/rkvpu_dec_test.cpp:201-226 | Exactly one `sendStream` per round, and it is the call `DecSendFor` gives for the chunks accepted so far: the next full chunk unflagged while one is left, else the rest of the file flagged, whether or not the decoder accepts it. It is accepted exactly when the decoder returns `VPU_OK`, and flagged exactly once end of input was seen, in every later round too. |
| `RkvpuDecTest.DecCallsSends` | rkvpu-codec/rkvpu_dec_test.cpp:201-226 | Whatever the decoder answers, every call the replies call for, refused ones included, carries the next full chunk after the accepted ones, unflagged, exactly while one is left, and otherwise the rest of the file with the end-of-stream flag. The accepted chunks never pass the end of the file. |
| `RkvpuDecTest.DecCallsAccepted` | rkvpu-codec/rkvpu_dec_test.cpp:201-226 | One call per round, accepted exactly when that round's reply was `VPU_OK`. |
| `RkvpuDecTest.DecOutputHalf` | rkvpu-codec/rkvpu_dec_test.cpp:228-249 | Each `VPU_OK` frame is counted once, written only with an output file, and released once. The half stops exactly on `VPU_EOS_STREAM_REACHED`. |
| `RkvpuDecTest.DecRound` | rkvpu-codec/rkvpu_dec_test.cpp:201-249 | One round keeps the loop invariant and stops exactly on end of stream. |
| `RkvpuDecTest.DecodeLoop` | rkvpu-codec/rkvpu_dec_test.cpp:201-252 | `DecodeOutcome`: the loop ends exactly at the first `VPU_EOS_STREAM_REACHED`, or when the script runs out. It makes one send per round, accepted exactly on `VPU_OK`, and the sends are exactly those the replies call for (`DecCalls`), a feed of the file. The frames released are the script's frames, counted and (with output) written in order. |
| `RkvpuDecTest.RunDecoder` | rkvpu-codec/rkvpu_dec_test.cpp:170-264 | `VPU_ERR_INIT` exactly on a failed open, with nothing sent. Otherwise `DecodeOutcome` holds for the input file: the loop stops exactly at the first `VPU_EOS_STREAM_REACHED`, one `sendStream` goes out per round, accepted exactly when the decoder said `VPU_OK` and carrying what the replies call for, and the frames taken are the script's, counted and written. `numBuffersDecoded` grows by them. |
| `NativeMediaPlayer.ParseCommandLine` | native-mediaplayer/native_mediaplayer.cpp:62-77 | Fewer than two arguments refuses (exit 1). Otherwise it plays `argv[1]` at position `atoi(argv[2])`, or 1 without a second argument. |
| `NativeMediaPlayer.SurfaceRect` | native-mediaplayer/native_mediaplayer.cpp:97-137 | The surface is half the display wide and a quarter high. Odd positions are left and even right. Rows are at 0, `dh/4`, `dh/2` and `dh/4*3`, and other positions go to (0,0). The surface always lies inside the display. |
| `NativeMediaPlayer.SurfaceRowsOverlap` | native-mediaplayer/native_mediaplayer.cpp:117-132 | As written, positions 5 and 7 (and 6 and 8) overlap exactly when the height leaves remainder 2 or 3 modulo 4. |
| `NativeMediaPlayer.SurfaceOverlapExample` | native-mediaplayer/native_mediaplayer.cpp:117-132 | On a 1080 × 2246 display, positions 5 and 7 overlap. |
| `NativeMediaPlayer.GridRect` | native-mediaplayer/native_mediaplayer.cpp:97-137 | Corrected placement at whole quarter-heights. It has the same size and also stays inside the display. |
| `NativeMediaPlayer.GridRectMatchesSurfaceRect` | native-mediaplayer/native_mediaplayer.cpp:97-137 | The corrected placement differs from the written one only at positions 5 and 6, and only for heights with remainder 2 or 3 modulo 4. |
| `NativeMediaPlayer.GridCellsDisjoint` | native-mediaplayer/native_mediaplayer.cpp:97-137 | With the corrected placement, the eight cells are pairwise disjoint. |
| `NativeMediaPlayer.LatchIff` | native-mediaplayer/native_mediaplayer.cpp:31-38 | After any sequence of messages, the flag is set exactly when it was set before or some message was `MEDIA_ERROR` or `MEDIA_PLAYBACK_COMPLETE`. Nothing clears it. |
| `NativeMediaPlayer.MyClient.constructor` | native-mediaplayer/native_mediaplayer.cpp:27-29 | A new client has not seen end of playback. |
| `NativeMediaPlayer.MyClient.Notify` | native-mediaplayer/native_mediaplayer.cpp:31-38 | `notify` latches end of playback. The new flag is the latch of the old flag and the message. |

## Left out

- Read errors (`ferror`) are not modelled. A short read that is not at end of file, after which
  the loops send the short chunk as ordinary data (native-codec/native_dec_test.cpp:305-308,
  rkvpu-codec/rkvpu_enc_test.cpp:220-224, rkvpu-codec/rkvpu_dec_test.cpp:203-207), never happens
  in the model.
- Foreign code is represented only by its answers:
  - `MediaCodec`, `NuMediaExtractor`, `VpuCodecContext` and the decoder wrapper `RKHWDecApi`, whose source is not part of this model;
  - the surface, display and binder calls.
- `getopt_long`, `atoi` and `strcpy` are taken as already applied: the model receives the parsed
  option list. Overflow of the fixed path buffers is not modelled.
- File I/O is modelled by contents and paths:
  - `fopen` is a map from paths to contents plus a set of creatable paths;
  - `fwrite` appends to a byte sequence;
  - `fflush` and `fclose` are not modelled.
- `MyClient::waitForEOS`, the mutex and the condition variable are concurrency only. So are timing,
  `usleep` and the floating-point fps report.
- `RKHWEncApi`'s destructor frees resources only (and dereferences `mVpuCtx` before its null check).
- The sizes of C's raw buffers are not modelled:
  - the `memcpy` in `getOutStream` copies `encOut->size` bytes after the header length was added,
    which over-reads the payload;
  - the `w*h*2` capacity of `mOutputBuf` is never checked;
  - the model keeps the intended byte layout and final size.
- `RkvpuEncApi.RKHWEncApi.GetOutStream`:
  - assumes the vendor's packet pointer is not null, so the output always becomes `mOutputBuf`;
  - counts frames in an unbounded `nat`, so a wrap of `mFrameCount` (`int32_t`) is not modelled.
- `RkvpuEncApi.RKHWEncApi.Prepare` keeps the parameters as `EncParams` computes them. The
  `VPU_API_ENC_GETCFG` control call after `init` (rkvpu-codec/rkvpu_enc_api.cpp:174) lets the
  vendor library write its own configuration back into that block; that write-back is not modelled.
- `RkvpuEncApi.EncParams`: `intraPicRate` is the unbounded product `IDRInterval * framerate`; the
  C++ computes it in 32-bit `int` (rkvpu-codec/rkvpu_enc_api.cpp:132), where a large product would
  overflow. The program never reaches that case: `main` passes `IDRInterval` 1, so the product is
  `frameRate`, itself an `int32` (`RkvpuEncTest.MainConfigParams`).
- `RkvpuEncApi.RKHWEncApi.constructor` sets `mCoding` to AVC. The C++ constructor leaves it unset;
  it is read only after a successful `prepare` has set it.
- Some values come from vendor or platform headers that are not part of this model:
  - `VPU_API_ERR_BASE` is taken as -1000, the same as `VPU_ERR_BASE`;
  - `ENC_INPUT_YUV420_SEMIPLANAR` = 1, `ENC_INPUT_YUV422_INTERLEAVED_UYVY` = 3 and
    `ENC_INPUT_BGR888` = 11 are taken from the Rockchip `vpu_api.h`;
  - `OMX_COLOR_FormatYUV420SemiPlanar` = 21 is from OpenMAX IL;
  - `MEDIA_PLAYBACK_COMPLETE` = 2 and `MEDIA_ERROR` = 100 are from Android's `media_event_type`;
  - `VPU_API_NOPTS_VALUE` is a separate constructor, `NoPts`;
  - the OMX coding values are the constructors `CodingAVC`, `CodingHEVC` and `CodingOther`.
- `RkvpuDecTest.RunDecoder` assumes `RKHWDecApi` reports the same `VPU_RET` codes as the encoder
  wrapper. Its `prepare` call and the decoder's `main` are not modelled; with `argc == 1`, that
  `main` uses an uninitialised context.
- `RkvpuEncTest.OutputHalf` writes the bytes of the framed packet. The source writes `encOut.size`
  bytes of it; the two agree whenever the vendor's size matches its payload (see
  `GetOutStream`'s last ensures).
- `RkvpuEncTest.PktSize` treats a product that does not fit `int32_t` as undefined behaviour (signed
  overflow), and the run ends `Undefined` there.
- These `CHECK`s are assumed to pass; the codec's answers that matter to the loops are the dequeue
  results:
  - `getTrackFormat`, `readSampleData`, `getSampleTime` and `queueInputBuffer`;
  - `releaseOutputBuffer` and `renderOutputBufferAndRelease` (native-codec/native_dec_test.cpp:382
    and 524, native-codec/native_enc_test.cpp:324);
  - `getOutputBuffers` after `INFO_OUTPUT_BUFFERS_CHANGED` (native-codec/native_dec_test.cpp:391-392
    and 533-534, native-codec/native_enc_test.cpp:327-328);
  - `getOutputFormat` after `INFO_FORMAT_CHANGED` (native-codec/native_dec_test.cpp:397 and 539,
    native-codec/native_enc_test.cpp:332).
- The bytes written for a filled output buffer are the codec's answer for it (`OutputUnit.bytes`),
  not read from the cached buffer vector at that index (native-codec/native_dec_test.cpp:375-376,
  native-codec/native_enc_test.cpp:314-315); the model does not tie the two.
- A round cut short by a failed `CHECK` or an out-of-range `itemAt` ends the run, and the model
  records nothing of it: a chunk read, a buffer queued or an output buffer drained earlier in that
  same round is not in the returned values.
- `VpuFeedCoversFile`: the size of the flagged last frame counts one byte more than it carries when
  the file is a whole number of chunks (an empty tail goes out with size 1). The model states that
  count; it does not model which byte the encoder then reads, the stale first byte of `pktBuf` from
  the previous chunk, or uninitialised memory for an empty file.
- `native_enc_test`'s `main` and `testSetupCodec`, `native_dec_test`'s `main` and the codec
  configuration in `testSetupCodec` are not modelled: they are setup of foreign objects. So is the
  surface creation in `native_mediaplayer`'s `main`.
- Loop counters (`mNumBuffersDecoded`, `numBuffersEncoded`, `numBuffersDecoded`) are unbounded
  `nat`s. `native_enc_test`'s `frameCount` is modelled modulo 2^32 as the `uint32_t` it is.
- The pump loops are bounded by the script. A run whose script ends before the codec reports the
  end ends `ScriptExhausted`, where the program would keep looping.

## Findings

| source | as written | input that shows it | evidently intended | confidence | as-written member | corrected member |
|---|---|---|---|---|---|---|
| native-codec/native_enc_test.cpp:149 | after opening the output file, the `--o` case tests `fp_input` for NULL | `--o out --i in --w 16 --h 16`: `fp_input` is still NULL when `--o` runs, so setup returns `BAD_VALUE` although both files open | test the stream just opened, `fp_output` | high; not executed | `NativeEncTest.AsWrittenAcceptsIff`, `NativeEncTest.OutputBeforeInputRejected` | `NativeEncTest.SetupAcceptsIff`, `NativeEncTest.ParseArgs` |
| native-mediaplayer/native_mediaplayer.cpp:117-132 | the third grid row starts at `dh/2` and the fourth at `dh/4*3` | a 1080 × 2246 display: rows 3 and 4 are `[1123, 1684)` and `[1683, 2244)`, sharing one pixel row; with `dh = 6`, positions 5 and 7 coincide | rows at whole quarter-heights, so the eight cells tile without overlap | medium; not executed | `NativeMediaPlayer.SurfaceRect`, `NativeMediaPlayer.SurfaceRowsOverlap` | `NativeMediaPlayer.GridRect`, `NativeMediaPlayer.GridCellsDisjoint` |
