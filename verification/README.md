# agent-sphere, verified core

A Dafny model of the parts of agent-sphere whose correctness is hard to see from the code: the remote video
path from dirty rectangles to encoded pictures, the IPC message protocol over a stream, the runtime logs, the
guest console ring with its panic detector, the byte transformations of the media path, the cloud tunnel's
framing, the LLM proxy's re-chunking, the textual port forwards and the initramfs writer.

Each component has a specification on plain values. Where the source changes state step by step, a class or a
method with loops does the same and is proved equal to that specification. The lemmas are about the
specification, over all inputs and all runs.

| files | component |
|---|---|
| `DirtyRects`, `Yuv`, `RemoteFrames`, `VideoEncoder`, `VideoPump`, `RemoteVideo`, `VideoHistory` | remote video, bottom up; `RemoteVideo` is the state machine of guest, session and pump, `VideoHistory` tells it by the events alone |
| `Escaping`, `Protocol`, `ProtocolRoundTrip`, `ProtocolMeaning`, `Receiving` | IPC messages and their stream |
| `Logs` | log tailing, rotation, live logs |
| `GuestConsole` | console ring, rolling tail, panic dump |
| `AnnexB`, `RtpExtension`, `PcmWindow` | H.264 units, RTP header extensions, audio staging |
| `Base64`, `Base64Bits`, `WebSocket` | cloud tunnel encodings |
| `Chunking`, `SseProxy`, `SseResponses` | LLM proxy responses |
| `Forwards`, `ForwardTexts` | host and guest forwards, IPv4 texts |
| `Cpio` | initramfs archive |
| `Options`, `Bits`, `Bytes`, `Sequences`, `Text`, `Numerals`, `Sockets` | shared vocabulary |

## What turned out not to hold

Four promises fail on some inputs. The code is modelled as it is; for each there is a counterexample and the
exact condition.

- A drained batch of slices is lost when the send buffer is full (src/daemon/remote_webrtc.cpp:1367-1371), and
  a later heartbeat encodes the old picture: `SkippedBatchIsLost`. Throwing a batch away is harmless exactly
  under the condition of `SkipHarmlessIff`; on runs that never do it, `EncodedPicturesShowLastDrain`; on all
  runs, `EncodedPictures` bounds the damage to the samples of the batches thrown away.
- A decoded header is the encoded message exactly when `Survives` holds: version 1, a type, no `=` in keys and
  no key that is one of the six fixed names, a last value not ending in a line break (the decoder strips those),
  and no size field of its own that contradicts the payload (src/ipc/protocol_v1.cpp:148-201):
  `HeaderRoundTrip`, and `TrailingReturnLost` for a message that does not.
- The RTP extension's length field has 16 bits and is written without a check
  (src/daemon/remote_webrtc.cpp:842-884); the media payload stays intact exactly when it fits: `ExtendedFits` for
  one extension, `MediaKeptIff` for any list, and `LengthWraps` for a packet where it does not.
- A Content-Type header of another kind after the body, as in a trailer, makes the LLM proxy answer twice
  (src/daemon/llm_proxy.cpp:709-740): `LateContentType` for any run, `LateContentTypeHappens` for one;
  the exact condition is in `CompletedExactly`.

Two bounds are exact: panic markers are always caught in writes of up to 39 bytes and not in writes of 40
(`CaughtUpTo39`), and a log request is answered alike across a rotation exactly when it does not reach into the
discarded file (`RotationInvisibleIff`).

## What is assumed

- Pixel conversion is an uninterpreted function of a pixel for luma and of a 2x2 block (4:2:0) or a pixel
  (4:4:4) for chroma, applied by libyuv, which is compiled in and succeeds. Frame width is below 2^29 and
  height below 2^31, as their C int strides and sizes demand. The samples of a slice
  given to the encoder lie in its buffer, and its far edges fit a C int.
- FFmpeg's opening of a codec, making a frame writable, and whether an encode succeeds are inputs of each step;
  so are congestion, timing, bit rate changes and keyframe requests.
- A read returns any non-empty part of what is pending, or nothing at the end; a send takes any prefix. Read
  errors count as the end of the stream, and interrupted calls are retried before either is seen.
- Bytes of text protocols are characters. Forward texts and archive names hold no NUL character, and archive
  names are ASCII: for others the writer's name size counts characters and not bytes.
- RTP packets are complete, and the accessors of libdatachannel read the header as section 5.1 of RFC 3550
  lays it out. A C int shift wraps, as C++20 defines it.

## Model

| member | source | states |
|---|---|---|
| `DirtyRects.NormalizeDirtyRect` | src/daemon/runtime_manager.cpp:100-119 | for every rectangle, also when x+width wraps in 32 bits: the result lies in the frame, splits no 2x2 block and covers the requested area clipped to the frame; a proper request gets nothing but the rest of the blocks it cuts through; an empty, misplaced or wrapping one the whole frame |
| `DirtyRects.AlignSpan` | src/daemon/runtime_manager.cpp:100-119 | one axis of it, with the case of an empty or wrapped span |
| `Yuv.ConversionRestricts` | src/daemon/runtime_manager.cpp:1251-1313 | converting a sub-rectangle that splits no chroma block equals restricting the conversion of the whole frame, in every plane, for odd frame sizes and both formats |
| `Yuv.SplitBlockDiffers` | src/daemon/runtime_manager.cpp:100-119 | without whole blocks that fails: a concrete frame and rectangle |
| `Yuv.MakeSliceFromBgra` | src/daemon/runtime_manager.cpp:1251-1313 | there is a slice exactly for a planar format and a non-empty rectangle, covering it in the producer's layout |
| `Yuv.PlaneDataAt` | src/daemon/remote_webrtc.cpp:1479-1484 | each plane of the producer starts at the offset the pump recomputes |
| `Yuv.PlanesInsideBuffer` | src/daemon/remote_webrtc.cpp:1473-1487 | every sample the pump addresses lies inside the producer's buffer |
| `Yuv.SliceSamples` | src/daemon/remote_webrtc.cpp:1473-1487 | reading a slice at those offsets gives the converted samples |
| `Yuv.StampShows` | src/daemon/ffmpeg_video_encoder.cpp:339-404 | stamping a slice of the framebuffer shows the framebuffer inside the slice and changes nothing outside it |
| `VideoEncoder.CopyRow` | src/daemon/ffmpeg_video_encoder.cpp:380-397 | one row copied, all other samples unchanged |
| `VideoEncoder.CopyRows` | src/daemon/ffmpeg_video_encoder.cpp:380-397 | a block of rows copied, all else unchanged |
| `VideoEncoder.CopyPlane` | src/daemon/ffmpeg_video_encoder.cpp:380-397 | one plane of the frame holds the stamped picture after copying the clipped slice |
| `VideoEncoder.NewPlane` | src/daemon/ffmpeg_video_encoder.cpp:249-337 | a fresh plane of the frame's size with no sample written |
| `VideoEncoder.ClippedSpanFits` | src/daemon/ffmpeg_video_encoder.cpp:339-404 | the samples of a span clipped to the frame lie inside plane and slice, also for odd sizes |
| `VideoEncoder.PatchedIsStamped` | src/daemon/ffmpeg_video_encoder.cpp:380-397 | the rows copied are exactly the stamped samples of that plane |
| `VideoEncoder.Encoder.constructor` | src/daemon/ffmpeg_video_encoder.cpp:249-250 | a new encoder is closed |
| `VideoEncoder.Encoder.Open` | src/daemon/ffmpeg_video_encoder.cpp:249-337 | an opened encoder has the configuration, no written sample and no seed |
| `VideoEncoder.Encoder.StampPlanes` | src/daemon/ffmpeg_video_encoder.cpp:380-397 | all three planes hold the stamped picture |
| `VideoEncoder.Encoder.ApplySlice` | src/daemon/ffmpeg_video_encoder.cpp:339-404 | when it succeeds the frame displays the stamped picture; the seed flag goes up exactly for a slice covering the frame; when it fails nothing changes; for every slice whose samples can be read, whatever its strides |
| `RemoteFrames.RuntimeSession.constructor` | src/daemon/runtime_manager.cpp:1317-1403 | a session starts with no framebuffer and a forced full frame |
| `RemoteFrames.RuntimeSession.UpdateRemoteVideoFrame` | src/daemon/runtime_manager.cpp:1317-1403 | refines the value-level update: full and partial slices, resize, queue overflow |
| `RemoteFrames.RuntimeSession.ReadRemoteFrame` | src/daemon/runtime_manager.cpp:1405-1460 | refines the drain: forced full frame, hand-over and clearing of the queue |
| `RemoteFrames.RuntimeSession.SetRemoteVideoPixelFormat` | src/daemon/runtime_manager.cpp:1073-1085 | refines the format change: only planar formats, queue dropped, full frame forced |
| `RemoteFrames.RuntimeSession.OpenSharedMemory` | src/daemon/runtime_manager.cpp:789-811 | refines the start on a new framebuffer |
| `RemoteFrames.UpdateKeepsQueue` | src/daemon/runtime_manager.cpp:1317-1403 | after any update at most 256 slices, each in the frame's format and inside the frame |
| `RemoteFrames.UpdateIsEconomical` | src/daemon/runtime_manager.cpp:1353-1380 | when no full frame is due, a proper notification costs one slice of at most one pixel more on each side than asked, behind the queue; only a slice of the whole frame supersedes the queue |
| `RemoteFrames.UpdateStartsOver` | src/daemon/runtime_manager.cpp:1331-1396 | after a new memory or format, or at 256 slices, the queue is one full slice |
| `RemoteFrames.FullSliceShows` | src/daemon/runtime_manager.cpp:1317-1403 | a full slice shows the framebuffer whatever the picture was |
| `RemoteFrames.OutsideSlice` | src/daemon/runtime_manager.cpp:100-119 | a sample outside a slice of whole blocks depends on no pixel of the slice |
| `RemoteFrames.AppendedSliceShows` | src/daemon/runtime_manager.cpp:1317-1403 | appending the slice of a notified rectangle leaves only pixels outside it stale |
| `RemoteFrames.WriteKeepsPicture` | src/daemon/runtime_manager.cpp:1317-1403 | a guest write leaves right every sample that depends on no written pixel |
| `RemoteFrames.UpdateBridges` | src/daemon/runtime_manager.cpp:1317-1403 | after an update, stamping the queue on any picture right at the last drain shows the present framebuffer except at written-but-unnotified pixels |
| `VideoPump.VideoPump.constructor` | src/daemon/remote_webrtc.cpp:1291-1318 | the pump starts with a closed encoder |
| `VideoPump.VideoPump.ApplyOne` | src/daemon/remote_webrtc.cpp:1473-1492 | one slice of a batch is stamped, or nothing changes |
| `VideoPump.VideoPump.ApplySlices` | src/daemon/remote_webrtc.cpp:1473-1495 | the encoder displays the slices applied in order up to the first failure |
| `VideoPump.VideoPump.Absorb` | src/daemon/remote_webrtc.cpp:1470-1508 | refines taking in a batch: seed flag and request for a new seed |
| `VideoPump.VideoPump.Reopen` | src/daemon/remote_webrtc.cpp:1373-1466 | refines reopening the encoder on a change of size, format, profile or bit rate |
| `VideoPump.VideoPump.Iterate` | src/daemon/remote_webrtc.cpp:1320-1508 | refines one iteration of the pump after its read, with the skipped batch of a full send buffer |
| `RemoteVideo.StepKeepsInvariant` | src/daemon/remote_webrtc.cpp:1320-1508 | every event (write, notification, resize, format change, drain, iteration) keeps the invariant of session, pump and encoder |
| `RemoteVideo.RunKeepsInvariant` | src/daemon/remote_webrtc.cpp:1320-1508 | so does every run |
| `RemoteVideo.PendingSlicesBridge` | src/daemon/runtime_manager.cpp:1317-1460 | in every run: the queue is bounded, inside the frame and in its format; unless a full frame is forced, stamping it on any picture right at the last drain shows the current framebuffer outside pixels written and not notified since memory was opened or converted whole |
| `RemoteVideo.EncodedPictures` | src/daemon/ffmpeg_video_encoder.cpp:399-415 | in every run, also one that skips batches, every encoded picture has every sample of every plane written since the encoder was opened and shows the framebuffer of the last drain at every sample outside the skipped batches not yet written over; it has another size or format only when a whole frame was skipped |
| `RemoteVideo.NothingLost` | src/daemon/remote_webrtc.cpp:1367-1371 | a run that skips no drained batch loses no sample |
| `RemoteVideo.EncodedPicturesShowLastDrain` | src/daemon/remote_webrtc.cpp:1320-1508 | on runs that skip no drained batch, every encoded picture has the size and format of the framebuffer at the last drain and equals its conversion |
| `RemoteVideo.FullFrameEndsLosses` | src/daemon/remote_webrtc.cpp:1470-1508 | a full frame that gets encoded ends all losses, in every run |
| `RemoteVideo.FullDrainIsExact` | src/daemon/runtime_manager.cpp:1405-1460 | after a drain that converted the whole frame, the picture encoded from it equals the whole framebuffer of that drain, unnotified writes included, whatever happens in between |
| `RemoteVideo.BridgeOverLost` | src/daemon/runtime_manager.cpp:1317-1460 | the pending slices also bridge the drains for a picture with lost samples, and put right those they cover |
| `RemoteVideo.SkipLosesCovered` | src/daemon/remote_webrtc.cpp:1367-1371 | a skipped batch leaves the picture right outside what it covers |
| `RemoteVideo.StampIsLocal` | src/daemon/ffmpeg_video_encoder.cpp:339-404 | stamping depends on the picture below only where no slice covers it |
| `RemoteVideo.SkipHarmlessIff` | src/daemon/remote_webrtc.cpp:1367-1371 | with nothing lost before, skipping a batch leaves the picture up to date if and only if the picture has the batch's size and format and every sample the batch would have written, other than stale ones, is there already |
| `RemoteVideo.SkippedBatchIsLost` | src/daemon/remote_webrtc.cpp:1367-1371 | a run in which a notified and drained pixel is missing from a later encoded picture |
| `RemoteVideo.LoseUpdate` | src/daemon/remote_webrtc.cpp:1367-1371 | every run that seeded a one-pixel screen can go on like that |
| `RemoteVideo.IterateKeepsPicture` | src/daemon/remote_webrtc.cpp:1320-1508 | a batch absorbed whole puts right what it covers, and a batch skipped costs no more than what it covers |
| `RemoteVideo.IterateKeepsEncoder` | src/daemon/remote_webrtc.cpp:1320-1508 | an iteration keeps a seeded encoder free of unwritten samples |
| `VideoHistory.RunFollows` | src/daemon/runtime_manager.cpp:789-811 | in every run the session's framebuffer is the memory last opened with the guest's writes since, its format the planar one last selected, and the last drain saw both as they were then, with no more stale pixels than the events leave unnotified |
| `VideoHistory.PictureShowsScreen` | src/daemon/remote_webrtc.cpp:1320-1508 | in every run each picture shows the screen the events had at the last drain, in the format then selected, outside skipped batches and unnotified pixels, in its size unless all of it was skipped |
| `VideoHistory.ScreenReachesViewer` | src/daemon/remote_webrtc.cpp:1320-1508 | on runs that skip no batch, at every sample of notified pixels and always in its size and format |
| `VideoHistory.EncodesIff` | src/daemon/remote_webrtc.cpp:1345-1508 | an iteration encodes one picture or none: one exactly when the send buffer is not full and either there is no batch and a seeded encoder, or a batch of which no slice is refused, with an encoder kept (same size, format, bit rate, profile) that is seeded or gets a full slice, or one newly opened with a single full slice |
| `VideoHistory.PumpAfter` | src/daemon/remote_webrtc.cpp:1373-1508 | configuration, open state, seed and the request for a full frame after an iteration |
| `VideoHistory.DrainHandsOver` | src/daemon/runtime_manager.cpp:1405-1460 | a drain hands over the whole queue and leaves none: one full slice when asked for or due, otherwise what was queued |
| `VideoHistory.AlwaysRecovers` | src/daemon/remote_webrtc.cpp:1320-1508 | whatever happened before, one notification and two undisturbed rounds bring a picture out |
| `VideoHistory.NewMemoryIsShown` | src/daemon/runtime_manager.cpp:789-811 | a newly opened memory is shown whole, in its own size and the selected format, by the next undisturbed round |
| `Escaping.Escape` | src/ipc/protocol_v1.cpp:10-20 | the loop computes the escaped text |
| `Escaping.Unescape` | src/ipc/protocol_v1.cpp:22-38 | the flag-driven loop computes the unescaped text |
| `Escaping.SplitTabs` | src/ipc/protocol_v1.cpp:40-66 | the loop cuts exactly at the tabs no backslash escapes |
| `Escaping.UnescapeEscape` | src/ipc/protocol_v1.cpp:10-38 | unescaping undoes escaping for every text |
| `Escaping.UnescapeShortened` | src/ipc/protocol_v1.cpp:10-38 | escaped text that is cut stands for fewer characters |
| `Escaping.TokensJoin` | src/ipc/protocol_v1.cpp:40-66 | splitting undoes joining for all lists of tokens without open escapes or bare tabs |
| `Escaping.EscapedClosed` | src/ipc/protocol_v1.cpp:10-66 | escaped text has no bare tab and no open escape |
| `Escaping.EscapedAppend` | src/ipc/protocol_v1.cpp:10-20 | escaping goes character by character |
| `Escaping.EscapedCharacter` | src/ipc/protocol_v1.cpp:10-20 | a backslash before backslash, tab, newline and equals sign, and before nothing else |
| `Escaping.JoinTokens` | src/ipc/protocol_v1.cpp:40-66 | for every text, its tokens joined by tabs are the text again |
| `Escaping.TokensUncut` | src/ipc/protocol_v1.cpp:40-66 | and no token can be cut further |
| `Protocol.ScanDecimal` | src/ipc/protocol_v1.cpp:68-76 | printed 64-bit numbers parse to themselves |
| `Protocol.EncodeHeader` | src/ipc/protocol_v1.cpp:118-137 | writes the header line for any order of the field map |
| `Protocol.Encode` | src/ipc/protocol_v1.cpp:139-146 | header line followed by the payload |
| `Protocol.Decode` | src/ipc/protocol_v1.cpp:148-201 | stripping, splitting, absorbing and the final checks equal the value-level decoder, with its errors |
| `Protocol.DecodeTokens` | src/ipc/protocol_v1.cpp:160-192 | the loop over tokens equals the value-level fold, with its errors |
| `ProtocolRoundTrip.DecodedShape` | src/ipc/protocol_v1.cpp:148-201 | whatever the line, a decoded message has version 1, a type, no payload and no reserved key |
| `ProtocolRoundTrip.NamesRoundTrip` | src/ipc/protocol_v1.cpp:80-116 | channel and kind names read back |
| `ProtocolRoundTrip.LineTokens` | src/ipc/protocol_v1.cpp:118-160 | stripping and splitting a header line gives its tokens, the last one shortened by trailing line breaks |
| `ProtocolRoundTrip.DecodeHeader` | src/ipc/protocol_v1.cpp:118-201 | exactly what decoding makes of an encoded header with good keys |
| `ProtocolRoundTrip.HeaderRoundTrip` | src/ipc/protocol_v1.cpp:118-201 | decoding an encoded header returns the message, with `payload_size` added for a payload, if and only if it survives; for every order of the field map and any mix of backslashes, tabs and `=` in values |
| `ProtocolRoundTrip.TrailingReturnLost` | src/ipc/protocol_v1.cpp:148-152 | a message with good keys that is lost because its last value ends in a carriage return |
| `ProtocolRoundTrip.BadKeyLost` | src/ipc/protocol_v1.cpp:148-201 | a message with a reserved key or `=` in a key never comes back |
| `ProtocolMeaning.HeaderText` | src/ipc/protocol_v1.cpp:118-137 | the header line of every message spelled out: six fixed tokens in order, the fields, the payload's size, a newline |
| `ProtocolMeaning.DecodedMeans` | src/ipc/protocol_v1.cpp:148-201 | for every line: it is a message exactly when it has six tokens, acceptable pairs, the last version 1 modulo 2^32 and a last type that is not empty; fixed parts come from the last token of their key, fields from the first |
| `ProtocolMeaning.TokensArePairs` | src/ipc/protocol_v1.cpp:160-192 | tokens without an equals sign are passed over |
| `ProtocolMeaning.AbsorbedIff` | src/ipc/protocol_v1.cpp:169-186 | which numbers and names are acceptable |
| `ProtocolMeaning.ParseU64Is` | src/ipc/protocol_v1.cpp:68-76 | every text of a number with blanks and sign, its overflow and negation, and refusal of what follows |
| `Sockets.Source.Read` | src/ipc/unix_socket.cpp:63-114 | a read of any size takes a front part of the stream, nothing only at its end |
| `Sockets.Sink.Send` | src/daemon/llm_proxy.cpp:83-95 | a send takes some prefix |
| `Sockets.SendAll` | src/daemon/llm_proxy.cpp:83-99 | success means all was delivered, failure that a proper part was |
| `Sockets.ReceiveAll` | src/daemon/cloud_tunnel.cpp:721-735 | exactly the first bytes of the stream, whatever the size of the reads, or failure when it is too short |
| `Receiving.Connection.ReadLine` | src/ipc/unix_socket.cpp:63-85 | the first line of everything not yet handed out, independent of read sizes |
| `Receiving.Connection.ReadExact` | src/ipc/unix_socket.cpp:91-114 | exactly the first bytes of everything not yet handed out, or failure when there are too few |
| `Receiving.ReadMessage` | src/daemon/runtime_manager.cpp:580-597 | one round of the loop: skip, message or stop, always consuming input |
| `Receiving.ReadRuntime` | src/daemon/runtime_manager.cpp:580-597 | the loop handles exactly the messages of the stream, independent of read sizes |
| `Receiving.ReceivedOne` | src/daemon/runtime_manager.cpp:580-597 | a streamable message at the front is received whole, whatever follows |
| `Receiving.ReceivedShape` | src/daemon/runtime_manager.cpp:580-597 | whatever the stream, received header texts hold no newline and payloads are part of the stream |
| `Receiving.StreamableIff` | src/daemon/runtime_manager.cpp:580-597 | a message sent alone arrives, with nothing left over, if and only if it is streamable |
| `Receiving.ReceivedWire` | src/daemon/runtime_manager.cpp:580-597 | every list of streamable messages, concatenated, arrives in order with its payloads and nothing left over |
| `Receiving.ReceivedNoisyWire` | src/daemon/runtime_manager.cpp:580-597 | lines that decode to nothing are passed over wherever they stand between messages, which all arrive |
| `Receiving.ReceivedEnds` | src/daemon/runtime_manager.cpp:580-597 | where the loop stops, and which bytes a message gets |
| `Logs.SplitLines` | src/daemon/runtime_manager.cpp:242-250 | the loop computes the lines |
| `Logs.CountNewlines` | src/daemon/runtime_manager.cpp:239 | the newline count |
| `Logs.ReadBack` | src/daemon/runtime_manager.cpp:221-253 | the backward walk in chunks ends with a suffix of the file that has enough newlines or is all of it |
| `Logs.TailLogFile` | src/daemon/runtime_manager.cpp:221-253 | for every file and n: the last n lines of a forward split |
| `Logs.SuffixSuffices` | src/daemon/runtime_manager.cpp:221-253 | a suffix with more than n newlines has the file's last n lines although its own first line may be partial |
| `Logs.Absorb` | src/daemon/runtime_manager.cpp:1573-1590 | one more, older file in front |
| `Logs.StoredLogs` | src/daemon/runtime_manager.cpp:1573-1590 | the last n lines of `.2`, `.1` and the active file in this order, whichever exist |
| `Logs.LogDirectory.RotateLogsIfNeeded` | src/daemon/runtime_manager.cpp:200-215 | refines the rotation, by file size |
| `Logs.LogsAfterRotation` | src/daemon/runtime_manager.cpp:200-215 | after a rotation: the last n lines of old `.1` and old active |
| `Logs.RotationInvisibleIff` | src/daemon/runtime_manager.cpp:200-215 | for all files and every n: the answer is the same before and after if and only if there is no active file, it has at most 10 MiB, the request fits the two newest files, or the oldest has no lines |
| `Logs.RotationKeepsTexts` | src/daemon/runtime_manager.cpp:200-215 | nothing changes below the limit; above it, every text but that of the oldest file survives, each in one file |
| `Logs.LogReader.TakeLine` | src/daemon/runtime_manager.cpp:599-649 | one complete line moves to the file and the live list |
| `Logs.LogReader.Receive` | src/daemon/runtime_manager.cpp:599-649 | after reads of any sizes: the file has every complete line, the live list the last of them |
| `Logs.LogReader.LiveLogs` | src/daemon/runtime_manager.cpp:1562-1568 | the last n of the live list |
| `Logs.LiveMatchesStored` | src/daemon/runtime_manager.cpp:1560-1590 | the live answer is the one the files give once the session is gone if and only if the request stays within the live list or the files hold nothing else |
| `GuestConsole.GuestRing.constructor` | src/runtime/crash_handler.cpp:59-75 | an empty ring |
| `GuestConsole.GuestRing.PushByte` | src/runtime/crash_handler.cpp:421-426 | one byte into the ring |
| `GuestConsole.GuestRing.Append` | src/runtime/crash_handler.cpp:421-426 | the ring holds the last 65536 bytes of the stream |
| `GuestConsole.GuestRing.UpdateTail` | src/runtime/crash_handler.cpp:428-442 | the tail holds the last 64 bytes of the stream, for writes of any size |
| `GuestConsole.GuestRing.GrowTail` | src/runtime/crash_handler.cpp:433-441 | a write that fits keeps the tail the last 64 bytes |
| `GuestConsole.GuestRing.TailMatchesPanic` | src/runtime/crash_handler.cpp:155-166 | whether some marker is in the tail |
| `GuestConsole.GuestRing.TailContains` | src/runtime/crash_handler.cpp:157-165 | whether one marker is in the tail |
| `GuestConsole.GuestRing.SnapshotLocked` | src/runtime/crash_handler.cpp:124-136 | the last 65536 bytes of the stream, oldest first |
| `GuestConsole.GuestRing.RecordGuestConsole` | src/runtime/crash_handler.cpp:413-452 | refines the console of a whole stream with its dump |
| `GuestConsole.DumpSound` | src/runtime/crash_handler.cpp:444-451 | in every run at most one dump, and it holds a marker that was in the stream |
| `GuestConsole.DumpIs` | src/runtime/crash_handler.cpp:413-452 | in every run the dump is exactly the last 65536 bytes written up to the first write after which a marker stands in the last 64 |
| `GuestConsole.DumpComplete` | src/runtime/crash_handler.cpp:413-452 | with writes of at most 65-L bytes a marker of length L is dumped even when it straddles writes |
| `GuestConsole.MissedMarker` | src/runtime/crash_handler.cpp:59-75 | two writes of at most 40 bytes that hide the longest marker |
| `GuestConsole.CaughtUpTo39` | src/runtime/crash_handler.cpp:59-75 | all listed markers are always caught in writes of a given size if and only if it is at most 39 |
| `AnnexB.StartCodeLength` | src/daemon/ffmpeg_video_encoder.cpp:178-190 | the start code at the front of the rest |
| `AnnexB.FindStartCode` | src/daemon/ffmpeg_video_encoder.cpp:192-197 | the first start code from an offset on |
| `AnnexB.TrimmedEnd` | src/daemon/ffmpeg_video_encoder.cpp:199-223 | the unit without its trailing zeros |
| `AnnexB.NextUnit` | src/daemon/ffmpeg_video_encoder.cpp:199-223 | the next unit and start code; progress |
| `AnnexB.AnnexBToLengthPrefixed` | src/daemon/ffmpeg_video_encoder.cpp:199-223 | succeeds exactly when there is a unit and all lengths fit; then the units in order, each behind its length |
| `AnnexB.ParseOfPrefixed` | src/daemon/ffmpeg_video_encoder.cpp:199-223 | reading by lengths undoes prefixing |
| `AnnexB.OutputParses` | src/daemon/ffmpeg_video_encoder.cpp:199-223 | for arbitrary input a successful output parses completely into non-empty units |
| `AnnexB.UnitsOfJoined` | src/daemon/ffmpeg_video_encoder.cpp:178-223 | every list of well-formed NAL units (section 7.4.1 and section B.1 of ITU-T H.264) is recovered from any mix of start codes and extra zeros |
| `AnnexB.ConversionRoundTrip` | src/daemon/ffmpeg_video_encoder.cpp:178-223 | so the converted output read by its lengths is exactly that list |
| `AnnexB.InputDecomposes` | src/daemon/ffmpeg_video_encoder.cpp:178-223 | for every input: apart from the units there are only start codes, zeros before the next, and a beginning without any start code |
| `RtpExtension.Message.Grow` | src/daemon/remote_webrtc.cpp:842-884 | the extension grown and its header rewritten |
| `RtpExtension.Message.WriteElement` | src/daemon/remote_webrtc.cpp:870-884 | the element behind the old ones |
| `RtpExtension.Message.AddRtpHeaderExtension` | src/daemon/remote_webrtc.cpp:842-884 | refines the value-level extension of a packet |
| `RtpExtension.NewBodyElements` | src/daemon/remote_webrtc.cpp:842-884 | the grown body parses to the old elements followed by the new one, in one-byte and two-byte form (sections 4.2 and 4.3 of RFC 8285) |
| `RtpExtension.ExtendedParts` | src/daemon/remote_webrtc.cpp:842-884 | the parts of the extended packet as its own length field gives them, also when that wraps |
| `RtpExtension.ExtendedFits` | src/daemon/remote_webrtc.cpp:842-884 | the media payload stays as it was if and only if the new length fits 16 bits |
| `RtpExtension.LengthWraps` | src/daemon/remote_webrtc.cpp:842-884 | a well-formed packet whose whole extension turns into media |
| `RtpExtension.ExtendedReads` | src/daemon/remote_webrtc.cpp:842-884 | then the packet is well-formed with the old elements and the new, padded by fewer than four bytes, and fixed header and sources differ at most in the extension bit (section 5.3.1 of RFC 3550) |
| `RtpExtension.MediaKeptIff` | src/daemon/remote_webrtc.cpp:803-884 | any list of extensions added in turn to any complete packet leaves its media alone if and only if every length on the way fits |
| `RtpExtension.MediaNeverShrinks` | src/daemon/remote_webrtc.cpp:842-884 | no list of extensions takes media away |
| `RtpExtension.ExtendAllReads` | src/daemon/remote_webrtc.cpp:803-884 | then, from a well-formed packet, the result is well-formed with the old elements and those it can carry, body length a multiple of four, fixed header and sources changed at most in the extension bit |
| `RtpExtension.Outgoing` | src/daemon/remote_webrtc.cpp:803-840 | which packets get which extensions, for every complete packet; all others untouched |
| `RtpExtension.OutgoingElements` | src/daemon/remote_webrtc.cpp:812-836 | the two elements a packet gains: BT.709/sRGB full range, and a playout delay of 10 ms |
| `PcmWindow.AudioPump.constructor` | src/daemon/remote_webrtc.cpp:1158-1190 | an empty window |
| `PcmWindow.AudioPump.Advance` | src/daemon/remote_webrtc.cpp:1177-1188 | the offset window is the queue without its first samples; physical size at most max(2*available, available+4096) |
| `PcmWindow.AudioPump.ConsumeFrame` | src/daemon/remote_webrtc.cpp:1236-1287 | one frame off the queue, the clock 20 ms further |
| `PcmWindow.AudioPump.DropBacklog` | src/daemon/remote_webrtc.cpp:1236-1243 | refines dropping down to five frames |
| `PcmWindow.AudioPump.SettleFrame` | src/daemon/remote_webrtc.cpp:1244-1287 | refines the outcome of one frame |
| `PcmWindow.AudioPump.SendQueued` | src/daemon/remote_webrtc.cpp:1244-1287 | refines the sending loop |
| `PcmWindow.AudioPump.Process` | src/daemon/remote_webrtc.cpp:1158-1289 | refines one round with a chunk: unsupported chunks, reopening, queueing, dropping, sending |
| `PcmWindow.DropExcess` | src/daemon/remote_webrtc.cpp:1236-1243 | at most five frames remain |
| `PcmWindow.SettleConserves` | src/daemon/remote_webrtc.cpp:1244-1287 | a frame that leaves the queue keeps the balance, whichever counter it goes to |
| `PcmWindow.RunBounded` | src/daemon/remote_webrtc.cpp:1158-1289 | every run keeps balance and bound |
| `PcmWindow.RunConserves` | src/daemon/remote_webrtc.cpp:1172-1287 | in every run: samples received since the encoder was opened = frame size times (sent + dropped + failed) + queued; the clock is 20 ms times the frames consumed; every sent frame holds exactly its stretch of the input; backlog at most five frames |
| `PcmWindow.FrameIsTwentyMilliseconds` | src/daemon/remote_webrtc.cpp:1160-1162 | a frame is 20 ms of samples of one channel |
| `PcmWindow.RunHears` | src/daemon/remote_webrtc.cpp:1206-1236 | in every run the samples received are those of the supported chunks since the encoder was last opened |
| `PcmWindow.DropsJustEnough` | src/daemon/remote_webrtc.cpp:1237-1243 | the backlog loop drops whole frames from the front and no more than it must |
| `PcmWindow.SendsExactly` | src/daemon/remote_webrtc.cpp:1244-1287 | the sending loop takes every complete frame up to the first that cannot be sent, and counts each by what became of it |
| `PcmWindow.SentInOrder` | src/daemon/remote_webrtc.cpp:1244-1287 | sent frames follow each other in the order of their time slots |
| `Base64.Alphabet` | src/daemon/cloud_tunnel.cpp:100-103 | the character whose value is the sextet |
| `Base64.Base64Encode` | src/daemon/cloud_tunnel.cpp:100-116 | the loop computes the encoding group by group |
| `Base64.Base64Decode` | src/daemon/cloud_tunnel.cpp:118-143 | the loop with its wrapping, unmasked C int emits what an unbounded accumulator would |
| `Base64.WrapSameLow` | src/daemon/cloud_tunnel.cpp:135 | a wrapping shift keeps the low 32 bits of the unbounded accumulator |
| `Base64.SameByte` | src/daemon/cloud_tunnel.cpp:137-140 | so the byte emitted is the same, also from a negative accumulator |
| `Base64.EmittedEncoded` | src/daemon/cloud_tunnel.cpp:100-143 | whatever was accumulated before, an encoding gives its bytes back |
| `Base64.RoundTrip` | src/daemon/cloud_tunnel.cpp:100-143 | decoding undoes encoding for byte strings of every length, also when characters outside the alphabet were put in (section 4 of RFC 4648) |
| `Base64.Ignored` | src/daemon/cloud_tunnel.cpp:132-134 | characters outside the alphabet change nothing, wherever they stand |
| `Base64Bits.AlphabetIsStandard` | src/daemon/cloud_tunnel.cpp:101-102 | the alphabet is the standard one, in its order |
| `Base64Bits.SextetIsPosition` | src/daemon/cloud_tunnel.cpp:119-126 | a character's value is its position there |
| `Base64Bits.EncodedIs` | src/daemon/cloud_tunnel.cpp:100-116 | every character of every encoding is the next six bits of the bytes, zero-filled, and then padding; four characters for three bytes begun |
| `Base64Bits.DecodedIs` | src/daemon/cloud_tunnel.cpp:118-143 | every bit of every decoded byte is a bit of the characters in order; fewer than eight left over are dropped |
| `WebSocket.XorBitsTwice` | src/daemon/cloud_tunnel.cpp:760-762 | masking a byte twice gives it back |
| `WebSocket.XorBitsIs` | src/daemon/cloud_tunnel.cpp:761-787 | a bit of the result is one exactly when the two bits differ |
| `WebSocket.MaskedBits` | src/daemon/cloud_tunnel.cpp:760-787 | bit by bit, the masked payload differs from the payload where the mask byte of its position has a one |
| `WebSocket.Unmasked` | src/daemon/cloud_tunnel.cpp:760-789 | masking twice with any four-byte mask gives the payload |
| `WebSocket.ApplyMask` | src/daemon/cloud_tunnel.cpp:760-762 | the loop computes the masked payload of `MaskedBits` |
| `WebSocket.Tunnel.SendText` | src/daemon/cloud_tunnel.cpp:737-764 | one masked text frame, or nothing when not connected or over 65535 bytes |
| `WebSocket.Tunnel.ReadBody` | src/daemon/cloud_tunnel.cpp:780-789 | mask and payload of a frame |
| `WebSocket.Tunnel.ReadText` | src/daemon/cloud_tunnel.cpp:766-789 | the frame at the front of the stream, independent of read sizes; which frames are refused |
| `WebSocket.ParsedIff` | src/daemon/cloud_tunnel.cpp:766-789 | a stream is read exactly when a whole text frame with a supported length stands at its front; payload and rest by their offsets |
| `WebSocket.SentFrameLayout` | src/daemon/cloud_tunnel.cpp:746-763 | the bytes of a sent frame: final, unextended, text, mask bit, length, the fixed mask, the masked payload |
| `WebSocket.FrameRoundTrip` | src/daemon/cloud_tunnel.cpp:746-789 | a text frame is read back and nothing after it touched, across the 125/126 boundary, with any mask or none (sections 5.2 and 5.3 of RFC 6455) |
| `WebSocket.StreamRoundTrip` | src/daemon/cloud_tunnel.cpp:746-789 | every list of payloads of at most 65535 bytes, each framed with its own flags and its own mask or none, is read back from the concatenated frames, with nothing left |
| `Chunking.DechunkChunked` | src/daemon/llm_proxy.cpp:294-300 | a receiver (section 7.1 of RFC 9112) joins the chunks in order and goes on with what follows |
| `Chunking.DechunkTerminator` | src/daemon/llm_proxy.cpp:719-721 | the zero chunk ends the body |
| `Chunking.NoPrematureEnd` | src/daemon/llm_proxy.cpp:294-300 | no part of a sequence of chunks, cut anywhere, is a complete body |
| `Chunking.SizeLine` | src/daemon/llm_proxy.cpp:115-119 | the printed size reads as the length of the data |
| `SseProxy.Forwarder.constructor` | src/daemon/llm_proxy.cpp:193-211 | the context of a new transfer |
| `SseProxy.Forwarder.HeaderCallback` | src/daemon/llm_proxy.cpp:216-255 | one header line: status lines reset and set the code, Content-Type sets the kind, all others mean nothing |
| `SseProxy.StripEnd` | src/daemon/llm_proxy.cpp:221-224 | the line without its line end |
| `SseProxy.TrimLeading` | src/daemon/llm_proxy.cpp:127-131 | the value without leading blanks |
| `SseProxy.StatusLineMeans` | src/daemon/llm_proxy.cpp:226-242 | a status line gives its code, whatever version and reason; one beyond an int gives zero |
| `SseProxy.ContentTypeMeans` | src/daemon/llm_proxy.cpp:244-254 | a Content-Type header gives its value in any letter case of the name, with any blanks and line end |
| `SseProxy.Forwarder.SendChunk` | src/daemon/llm_proxy.cpp:294-300 | the three sends deliver one chunk or a proper part of it |
| `SseProxy.Forwarder.Forward` | src/daemon/llm_proxy.cpp:275-301 | header once, then the chunk; how far it got when the guest is gone |
| `SseProxy.Forwarder.Record` | src/daemon/llm_proxy.cpp:266-273 | captured body, counters, `[DONE]` |
| `SseProxy.Forwarder.WriteCallback` | src/daemon/llm_proxy.cpp:261-304 | refines the step of the context for a piece of body; returns less than it got exactly when the guest is gone |
| `SseProxy.Forwarder.SendResponse` | src/daemon/llm_proxy.cpp:759-769 | header and body of a response with its length |
| `SseProxy.Forwarder.Finish` | src/daemon/llm_proxy.cpp:673-740 | refines the end of a transfer in all its branches |
| `SseProxy.RunShows` | src/daemon/llm_proxy.cpp:261-304 | in every run the guest has received one response header and then the pieces as chunks, or a proper part of that when it hung up |
| `SseProxy.HeadArrives` | src/daemon/llm_proxy.cpp:276-293 | the header counts as sent only when all of it is on the wire, and for a guest that stays exactly when something was forwarded |
| `SseProxy.RunCaptures` | src/daemon/llm_proxy.cpp:261-304 | the pieces forwarded are the captured body if and only if the response stayed an event stream |
| `SseProxy.NeverPremature` | src/daemon/llm_proxy.cpp:673-709 | in every state of every run with the header out, no complete body is on the wire; a client break or an upstream error adds nothing and ends the connection |
| `SseProxy.CompletedExactly` | src/daemon/llm_proxy.cpp:709-740 | on normal completion after at least one byte, de-chunking gives exactly the captured body with nothing after its one terminator, if and only if the response stayed an event stream |
| `SseProxy.LateContentType` | src/daemon/llm_proxy.cpp:249-253 | any completed run followed by a Content-Type of another kind violates it |
| `SseProxy.LateContentTypeHappens` | src/daemon/llm_proxy.cpp:249-253 | a one-byte event stream with such a trailer |
| `SseResponses.OneResponse` | src/daemon/llm_proxy.cpp:663-740 | when no piece was streamed the guest gets exactly one response: code from curl, else the last status line, else 200; kind from the last Content-Type since then, with its default; body all the upstream sent; or 502 with the error; read back line by line |
| `SseResponses.RunFollows` | src/daemon/llm_proxy.cpp:216-304 | while the guest stays: status, kind, captured body, counters and marker are what the upstream's lines and pieces say |
| `SseResponses.WireFollows` | src/daemon/llm_proxy.cpp:261-304 | while the guest stays: nothing on the wire until the first piece of an event stream, then one header for code and kind of that moment, then the pieces as chunks |
| `SseResponses.StreamCompletes` | src/daemon/llm_proxy.cpp:709-740 | on normal completion the head reads back line by line and everything the upstream sent is de-chunked, with nothing after it, if and only if the response stayed an event stream |
| `SseResponses.PlainHeadReads` | src/daemon/llm_proxy.cpp:759-767 | a response head read by a reader of HTTP/1.1 heads: code, kind, length, connection, and the body after the empty line |
| `SseResponses.StreamHeadReads` | src/daemon/llm_proxy.cpp:277-287 | the same for the head of an event stream, with its transfer coding |
| `SseResponses.EndIs` | src/daemon/llm_proxy.cpp:673-740 | reason, keep-alive and shutdown for every end of a transfer; nothing more is sent to a guest that is gone |
| `SseProxy.LowerIs` | src/daemon/llm_proxy.cpp:121-125 | lower case letter by letter |
| `SseProxy.ContainsIff` | src/daemon/llm_proxy.cpp:253-273 | a text contains another exactly when it stands somewhere in it |
| `Forwards.FindChar` | src/common/vm_model.h:92-95 | the first occurrence |
| `Forwards.FindLastChar` | src/common/vm_model.h:188-192 | the last occurrence |
| `Forwards.ParseUint` | src/common/vm_model.h:100-109 | the loop with 32-bit wrap and its `next < v` test |
| `Forwards.AccumulatedExact` | src/common/vm_model.h:100-109 | the result is exact below 2^32; beyond, a missed wrap leaves at least 429496729 |
| `Forwards.PortExact` | src/common/vm_model.h:100-109 | for texts of any length, a port accepted in 1..65535 is the exact decimal value, and every decimal text of a port is accepted |
| `Forwards.DigitsEnd` | src/common/vm_model.h:58-59 | the end of the leading digits |
| `Forwards.ParseEndpoint` | src/common/vm_model.h:50-61 | address before the last colon, port in the digits after it |
| `Forwards.ParsePort` | src/common/vm_model.h:45-48 | the port up to the dash |
| `Forwards.FromFullHostfwd` | src/common/vm_model.h:38-67 | the full form |
| `Forwards.FromLegacyHostfwd` | src/common/vm_model.h:69-88 | the legacy form, with the LAN flag |
| `Forwards.FromLegacyRest` | src/common/vm_model.h:74-88 | guest port and LAN flag |
| `Forwards.FromHostfwd` | src/common/vm_model.h:34-89 | the empty text, the full form and the legacy form |
| `Forwards.EndpointRoundTrip` | src/common/vm_model.h:26-61 | a printed endpoint reads back exactly when its port is set, for any address text |
| `Forwards.HostRoundTrip` | src/common/vm_model.h:26-67 | a host forward survives printing and parsing, label dropped and loopback written out, if and only if its ports are set and its bind address has no colon |
| `Forwards.LegacyReads` | src/common/vm_model.h:69-88 | the legacy form with a third number: the ports as printed, all addresses when it is not zero |
| `Forwards.LegacyPairReads` | src/common/vm_model.h:69-88 | the legacy form with two ports |
| `Forwards.ParseOctet` | src/common/vm_model.h:210-215 | one octet, with the unchecked wrap |
| `Forwards.ParseIp4` | src/common/vm_model.h:203-224 | the nested loops compute the value-level parse |
| `Forwards.Ip4RoundTrip` | src/common/vm_model.h:176-224 | every 32-bit address survives its dotted form |
| `Forwards.FromGuestfwd` | src/common/vm_model.h:133-171 | prefix, address, port, endpoint |
| `Forwards.GuestRoundTrip` | src/common/vm_model.h:127-171 | a guest forward survives printing and parsing, label dropped and loopback written out, if and only if its ports are set |
| `ForwardTexts.PortIs` | src/common/vm_model.h:45-48 | the port before a dash is accepted exactly when it is decimal digits of a value from 1 to 65535 |
| `ForwardTexts.EndpointIs` | src/common/vm_model.h:50-61 | address and port of every text with a colon, or its refusal |
| `ForwardTexts.FullIs` | src/common/vm_model.h:38-67 | every text of the full host form: accepted exactly when both ports are, with these values |
| `ForwardTexts.FullForm` | src/common/vm_model.h:38-67 | and every accepted text is of that form |
| `ForwardTexts.LegacyPairIs` | src/common/vm_model.h:69-88 | every text of two ports |
| `ForwardTexts.LegacyIs` | src/common/vm_model.h:69-88 | every text of two ports and a flag |
| `ForwardTexts.OctetIs` | src/common/vm_model.h:210-216 | an octet is accepted exactly when its decimal value modulo 2^32 is at most 255 |
| `ForwardTexts.Ip4Is` | src/common/vm_model.h:203-224 | four texts between three dots are an address exactly when each is an octet |
| `ForwardTexts.Ip4NeedsThreeDots` | src/common/vm_model.h:203-224 | any other number of dots is refused |
| `ForwardTexts.GuestIs` | src/common/vm_model.h:133-171 | every text of the guest form, or its refusal |
| `ForwardTexts.HostText` | src/common/vm_model.h:26-30 | the text of a host forward, spelled out |
| `ForwardTexts.GuestText` | src/common/vm_model.h:127-131 | the text of a guest forward, spelled out |
| `Cpio.CpioWriter.constructor` | scripts/mkcpio.py:22-24 | an empty archive, numbering from one |
| `Cpio.CpioWriter.Pad` | scripts/mkcpio.py:26-28 | the shortest padding to the unit |
| `Cpio.CpioWriter.Append` | scripts/mkcpio.py:48-52 | appended and padded |
| `Cpio.CpioWriter.Add` | scripts/mkcpio.py:30-53 | the buffer is the archive of one more entry |
| `Cpio.CpioWriter.Finish` | scripts/mkcpio.py:55-59 | the entries, the trailer and padding to 512 |
| `Cpio.Archive` | scripts/mkcpio.py:55-59 | the length is a multiple of 512 |
| `Cpio.HexField` | scripts/mkcpio.py:34-47 | a field has eight digits if and only if it is below 2^32 |
| `Cpio.EntryRoundTrip` | scripts/mkcpio.py:30-53 | a reader recovers an entry and stands at what follows it |
| `Cpio.HeadersAligned` | scripts/mkcpio.py:26-53 | every header stands at a multiple of four |
| `Cpio.ArchiveRoundTrip` | scripts/mkcpio.py:30-59 | for NUL-free names other than the trailer's and fields below 2^32, a reader recovers the entries in order, numbered from one |
| `Cpio.ArchiveEnds` | scripts/mkcpio.py:55-59 | behind the entries stands the trailer with the next number, and behind it fewer than 512 NUL bytes |

## Left out

- Sockets, TLS, curl, shared memory, processes and file system calls: only the bytes they deliver are modelled.
- FFmpeg, libyuv, libdatachannel, Opus and JSON internals; the JSON inside WebSocket frames and error bodies.
- VM lifecycle, image downloads, console fan-out, the clipboard agent, OIDC login, the client's terminal filters
  and the user interfaces.
- Timing, back-off, pacing and condition variables, which are nondeterministic inputs here; the log lines and
  statistics of the pumps.
- Receiving.StreamableIff: leaves out messages that have a payload and carry their own `payload_size` field with
  a newline in it. Cut there, such a header can by coincidence announce the right bytes. No sender does this:
  the field is written only by the encoder (src/ipc/protocol_v1.cpp:132).
- Yuv.MakeSliceFromBgra: states area and layout; what the samples are is stated by `SliceSamples`.
- Logs.LiveMatchesStored: for an active file that began with whole lines, since only whole lines are written.
- Cpio.ArchiveRoundTrip: for ASCII names only; the directory walk, gzip and the command line are not modelled.
- PcmWindow.RunConserves: the counters since the encoder was last opened; the totals the pump logs at its end
  are not modelled.
- Chunking: chunk extensions and trailers, which the proxy never sends.
