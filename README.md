# STF screen streaming, app install and device control, modelled in Dafny

This project models the core of an STF (Smartphone Test Farm) fork that streams device screens as H.264 instead of JPEG frames.

- **scrcpy client** (module `Scrcpy`). The device-side client reads the scrcpy server's handshake: an optional dummy byte, a 64-byte device name, and 12 bytes of codec metadata. It splits the Annex B stream into NAL units. It holds back SPS/PPS configuration units and prepends them to IDR frames.
- **Relay** (module `ScrcpyStream`). The relay caches the last SPS, PPS and IDR units for late subscribers. It starts the frame producer when the first WebSocket client subscribes and stops it when the last one leaves. It broadcasts every chunk to all subscribers.
- **Browser renderers** (module `H264Renderer`). Three players share the module:
  - a WebCodecs renderer, with its NAL parser and its AVCDecoderConfigurationRecord (ISO/IEC 14496-15, section 5.3.3.1);
  - a JMuxer (MSE) player;
  - a Broadway player.

  The module also holds the factory that picks one of them.
- **Stream type detector** (module `StreamTypeDetector`). It tells a JPEG frame from H.264 data by its first bytes.
- **App install** (modules `DeviceInstall` and `InstallService`):
  - `DeviceInstall` is the device plugin. It pushes a plain file, or installs an APK or another package with `pm install`. It reports progress and replies with a result code.
  - `InstallService` is the browser service. It uploads the file, chooses what to ask of the device and tracks the installation's progress and final state.
- **Batch user script** (module `BatchCreateUsers`). It reads `email,name` or `email name` lines, validates the addresses and counts the insertions.
- **Device control pane** (module `DeviceControl`). It covers the header toggles, rotation requests, the orientation label and the rotation-lock setting.

Shared definitions live in three modules:

- `Nal`: bytes, start codes, cutting a buffer at start codes, and the start-code scan used by both browser parsers.
- `Text`: trimming, splitting and searching strings as JavaScript does.
- `Wrappers`: `Option` and a few sequence facts.

State that the source updates in place is modelled as classes with `modifies` clauses: the scrcpy client, keyframe cache, producer, relay, parser, renderers, installation, install progress and control pane. Each of their methods is specified against functions on values, and the properties are proved about those functions.

The model treats the following as parameters:

- the network, adb, the file system, timers and the database;
- the answers of the browser decoders;
- `Buffer.toString('utf8')`.

## Model

| member | source | states |
|---|---|---|
| Scrcpy.StartCodeAt | lib/units/device/resources/scrcpy.js:15-28 | the start-code size at a position is 0, 3 or 4 |
| Scrcpy.StartCodeAtMeaning | lib/units/device/resources/scrcpy.js:15-28 | a 3- or 4-byte start code is recognised exactly when the bytes match and at least one byte follows the code |
| Scrcpy.UnitStarts | lib/units/device/resources/scrcpy.js:30-49 | every position the scan records holds a start code, and the positions are increasing cut points of the buffer |
| Scrcpy.SplitFromIsCut | lib/units/device/resources/scrcpy.js:30-49 | the splitting loop yields the buffer cut at the scanned start codes, each unit running to the next start or to the end |
| Scrcpy.SplitAnnexBNalus | lib/units/device/resources/scrcpy.js:30-49 | the loop returns exactly the units of the cut at the start codes |
| Scrcpy.NoStartCodeBeforeFirst | lib/units/device/resources/scrcpy.js:30-49 | no position the scan passes over before its first find holds a start code |
| Scrcpy.SplitUnitsNonEmpty | lib/units/device/resources/scrcpy.js:30-49 | every unit is at least three bytes long, since it holds its start code |
| Scrcpy.NextStartAfterCode | lib/units/device/resources/scrcpy.js:36-41 | consecutive starts are at least the first start code's length apart |
| Scrcpy.SplitEmptyIffNoStartCode | lib/units/device/resources/scrcpy.js:30-49 | there are no units exactly when the buffer holds no recognised start code |
| Scrcpy.SplitCoversFromFirstStartCode | lib/units/device/resources/scrcpy.js:30-49 | the units concatenate back to the buffer from its first start code, and nothing before that code is one |
| Scrcpy.SplitUnitType | lib/units/device/resources/scrcpy.js:51-60 | a unit's type is the low five bits of the byte after its start code, or -1 when no byte follows |
| Scrcpy.TypeOfCodedUnit | lib/units/device/resources/scrcpy.js:51-60 | a unit that opens with a start code has the type of the byte after it, if there is one |
| Scrcpy.GetNalType | lib/units/device/resources/scrcpy.js:51-60 | the result lies in -1..31; it is non-negative exactly when the unit opens with a start code that a byte follows, and then it is that byte's type |
| Scrcpy.SelectUnits | lib/units/device/resources/scrcpy.js:292-301 | a filter keeps exactly the units whose parameter-set test (SPS or PPS) has the wanted value |
| Scrcpy.SelectPartition | lib/units/device/resources/scrcpy.js:292-301 | the two filters partition the units; with no parameter set, the second filter keeps every unit |
| Scrcpy.NoStartCodePassesThrough | lib/units/device/resources/scrcpy.js:283-288 | a payload without start codes is returned untouched, and the configuration buffer is kept |
| Scrcpy.ConfigOnlyGroupAbsorbed | lib/units/device/resources/scrcpy.js:68-76 | a payload made only of SEI, SPS, PPS or delimiter units yields null and becomes the configuration buffer |
| Scrcpy.MixedGroupRewritten | lib/units/device/resources/scrcpy.js:272-317 | a mixed payload has its SPS/PPS units stripped into the configuration buffer; the rest is emitted, with the configuration prepended when it holds an IDR |
| Scrcpy.KeyframeCarriesItsOwnParameterSets | lib/units/device/resources/scrcpy.js:295-314 | an SPS arriving with an IDR replaces the old configuration before the IDR is prefixed, so the old SPS and PPS are not re-injected |
| Scrcpy.InitialQueue | lib/units/device/resources/scrcpy.js:114-138 | the handshake queue holds the dummy, device and codec blocks, each exactly when its flag is set, in that order and with sizes 1, 64 and 12 |
| Scrcpy.ReadInt32BE | lib/units/device/resources/scrcpy.js:371-373 | a big-endian two's-complement read yields a signed 32-bit value |
| Scrcpy.ReadInt32BERoundTrip | lib/units/device/resources/scrcpy.js:371-373 | reading back the four bytes of a signed 32-bit value gives the value |
| Scrcpy.Int32BEBytesOfRead | lib/units/device/resources/scrcpy.js:371-373 | every four bytes are the encoding of the value read from them |
| Scrcpy.RemoveNul | lib/units/device/resources/scrcpy.js:367 | removing NULs keeps exactly the characters other than NUL |
| Scrcpy.DeviceName | lib/units/device/resources/scrcpy.js:367 | the name holds no NUL unless it is the serial, and it is empty only when the serial is |
| Scrcpy.Consume | lib/units/device/resources/scrcpy.js:352-380 | after the loop, the queue is empty or the buffer is shorter than the next block |
| Scrcpy.ConsumeTakesWholeBlocks | lib/units/device/resources/scrcpy.js:352-380 | the loop drops a prefix of the queue and exactly the bytes of those blocks from the front of the buffer |
| Scrcpy.ConsumeThenFeed | lib/units/device/resources/scrcpy.js:350-404 | consuming early and consuming after more bytes arrive give the same state |
| Scrcpy.FeedAllIsFeedOfConcat | lib/units/device/resources/scrcpy.js:345-404 | feeding chunks one by one equals feeding their concatenation, so the handshake does not depend on how TCP splits the stream |
| Scrcpy.ConsumeIdempotent | lib/units/device/resources/scrcpy.js:352-380 | running the loop twice is running it once |
| Scrcpy.ScrcpyClient.constructor | lib/units/device/resources/scrcpy.js:87-108 | a new client is not connected, not stopping and holds a freshly reset handshake |
| Scrcpy.ScrcpyClient.InitializeHandshakeState | lib/units/device/resources/scrcpy.js:114-148 | the buffers are emptied, the queue is rebuilt from the flags and the serial becomes the name; complete means the queue is empty |
| Scrcpy.ScrcpyClient.BeginStart | lib/units/device/resources/scrcpy.js:153-161 | starting resets the handshake, and device information is unresolved for the new connection |
| Scrcpy.ScrcpyClient.FinishStart | lib/units/device/resources/scrcpy.js:171-182 | on success the client is connected; on failure it is stopping, and it is torn down only when it was not stopping already |
| Scrcpy.ScrcpyClient.Stop | lib/units/device/resources/scrcpy.js:461-501 | a second stop changes nothing; a first stop disconnects, marks stopping and resets the handshake |
| Scrcpy.ScrcpyClient.UpdateConfigBuffer | lib/units/device/resources/scrcpy.js:272-281 | the concatenated units replace the configuration buffer unless the concatenation is empty |
| Scrcpy.ScrcpyClient.ProcessVideoPayload | lib/units/device/resources/scrcpy.js:283-317 | the output and the new configuration buffer are those of the payload function |
| Scrcpy.ScrcpyClient.ProcessHandshake | lib/units/device/resources/scrcpy.js:352-402 | the handshake state becomes the consumed state; the device information resolves once, on the first empty queue |
| Scrcpy.ScrcpyClient.OnData | lib/units/device/resources/scrcpy.js:345-425 | the data is appended and consumed; once the handshake is complete the leftover bytes become video, emitted only while connected and not stopping |
| ScrcpyStream.StartCodeLenAt | lib/units/device/plugins/screen/scrcpy-stream.js:47-55 | the test reports 4 or 3 exactly when that start-code form is at the position |
| ScrcpyStream.RecordsFrom | lib/units/device/plugins/screen/scrcpy-stream.js:41-71 | every record describes a start code followed by a header byte, with a type in 0..31, and records never overlap |
| ScrcpyStream.ParseNalUnits | lib/units/device/plugins/screen/scrcpy-stream.js:41-71 | the loop returns exactly the records of the recursive definition |
| ScrcpyStream.RecordOffsetsValid | lib/units/device/plugins/screen/scrcpy-stream.js:76-79 | the record offsets are increasing cut points of the data |
| ScrcpyStream.UnitSlicesCover | lib/units/device/plugins/screen/scrcpy-stream.js:76-79 | the units extracted between records concatenate back to the data from the first record |
| ScrcpyStream.UnseenTypeKeepsField | lib/units/device/plugins/screen/scrcpy-stream.js:84-106 | a cache field whose type does not occur in the chunk keeps its value |
| ScrcpyStream.LastUnitOfTypeWins | lib/units/device/plugins/screen/scrcpy-stream.js:84-106 | a cache field holds the last unit of its type in the chunk |
| ScrcpyStream.KeyframeCache.constructor | lib/units/device/plugins/screen/scrcpy-stream.js:31-35 | the cache starts empty |
| ScrcpyStream.KeyframeCache.Clear | lib/units/device/plugins/screen/scrcpy-stream.js:146-149 | all three fields are nulled |
| ScrcpyStream.KeyframeCache.CacheKeyframes | lib/units/device/plugins/screen/scrcpy-stream.js:84-106 | each of SPS, PPS and IDR becomes the result of folding the chunk's records over its old value |
| ScrcpyStream.KeyframeCache.CacheUnits | lib/units/device/plugins/screen/scrcpy-stream.js:87-105 | the loop over the records leaves each field equal to the fold |
| ScrcpyStream.KeyframeCache.GetCachedKeyframes | lib/units/device/plugins/screen/scrcpy-stream.js:111-123 | the result holds the present entries in the order SPS, PPS, IDR: at most three, and none exactly when all are null |
| ScrcpyStream.Present | lib/units/device/plugins/screen/scrcpy-stream.js:111-123 | an entry contributes one frame when present and none when null |
| ScrcpyStream.FrameProducer.constructor | lib/units/device/plugins/screen/scrcpy-stream.js:128-132 | a new producer is not running and has no device information |
| ScrcpyStream.FrameProducer.Start | lib/units/device/plugins/screen/scrcpy-stream.js:136-196 | while running, it returns the current information and changes nothing; a fresh start clears the cache and creates a client; a failure leaves the producer not running |
| ScrcpyStream.FrameProducer.Stop | lib/units/device/plugins/screen/scrcpy-stream.js:198-207 | the producer stops, and the client is stopped exactly when one was ever created |
| ScrcpyStream.FrameProducer.OnClientClose | lib/units/device/plugins/screen/scrcpy-stream.js:182-186 | the producer is no longer running |
| ScrcpyStream.FrameProducer.OnClientData | lib/units/device/plugins/screen/scrcpy-stream.js:171-175 | the chunk is emitted unchanged, and the cache is updated by it |
| ScrcpyStream.Without | lib/units/device/plugins/screen/scrcpy-stream.js:355-365 | deleting a key removes exactly that id and keeps the others |
| ScrcpyStream.WithoutDistinct | lib/units/device/plugins/screen/scrcpy-stream.js:355-365 | deleting a key keeps the map's keys distinct |
| ScrcpyStream.StartReply | lib/units/device/plugins/screen/scrcpy-stream.js:278-289 | a failed start sends one error; a start without information sends nothing; otherwise the start message is followed by each cached frame in order |
| ScrcpyStream.Relay.constructor | lib/units/device/plugins/screen/scrcpy-stream.js:245-253 | the relay starts with no clients and a producer that has not been started |
| ScrcpyStream.Relay.Connect | lib/units/device/plugins/screen/scrcpy-stream.js:291-296 | a new connection is known and not subscribed; nothing else changes |
| ScrcpyStream.Relay.EnsureProducerStarted | lib/units/device/plugins/screen/scrcpy-stream.js:255-262 | the producer is started only when it has not been started already, and a started producer keeps its information |
| ScrcpyStream.Relay.MaybeStopProducer | lib/units/device/plugins/screen/scrcpy-stream.js:267-273 | the producer is stopped exactly when nobody is left and it had been started |
| ScrcpyStream.Relay.On | lib/units/device/plugins/screen/scrcpy-stream.js:333-353 | a second `on` is ignored; a first `on` subscribes, starts the producer if needed and sends the start reply |
| ScrcpyStream.Relay.Off | lib/units/device/plugins/screen/scrcpy-stream.js:354-358 | `off` unsubscribes and removes the id; the producer stops when the last client leaves; the producer has been started exactly while somebody is subscribed |
| ScrcpyStream.Relay.Drop | lib/units/device/plugins/screen/scrcpy-stream.js:362-374 | close and error remove the id and stop the producer when the last client leaves |
| ScrcpyStream.Relay.Broadcast | lib/units/device/plugins/screen/scrcpy-stream.js:379-390 | every client is sent the chunk, in map order; a failed send affects no other client |
| Nal.NalType | res/app/components/stf/screen/h264-renderer.js:657 | `& 0x1f` gives a type in 0..31 that equals the header byte when that byte is below 32 |
| Nal.ScanStarts | res/app/components/stf/screen/h264-renderer.js:458-471 | every scanned position holds a start code that ends before the last byte, and the positions increase |
| Nal.ScanEmptyIffNoCode | res/app/components/stf/screen/h264-renderer.js:458-471 | the scan finds nothing exactly when no examined position holds a start code |
| Nal.BetweenFromIsBetween | res/app/components/stf/screen/h264-renderer.js:614-647 | the extraction loop yields the slices between consecutive scanned start codes and ends with `start` at the last one |
| Nal.ScanGap | res/app/components/stf/screen/h264-renderer.js:458-471 | consecutive scanned starts are at least the first code's length apart |
| H264Renderer.Pushed | res/app/components/stf/screen/h264-renderer.js:600-608 | the data is appended, but a buffer over 5 MiB is discarded first |
| H264Renderer.H264Parser.constructor | res/app/components/stf/screen/h264-renderer.js:596-598 | the parser starts empty |
| H264Renderer.H264Parser.Push | res/app/components/stf/screen/h264-renderer.js:600-608 | the buffer becomes the pushed buffer |
| H264Renderer.H264Parser.Clear | res/app/components/stf/screen/h264-renderer.js:610-612 | the buffer is emptied |
| H264Renderer.H264Parser.ExtractNalUnits | res/app/components/stf/screen/h264-renderer.js:614-647 | the units between start codes are returned, and the buffer keeps everything from the last start code |
| H264Renderer.ExtractKeepsStream | res/app/components/stf/screen/h264-renderer.js:614-647 | extraction loses nothing from the first start code, leaves the buffer at a start code, and keeps the buffer whole when there is none |
| H264Renderer.GetNalType | res/app/components/stf/screen/h264-renderer.js:649-658 | the type is -1 exactly for an empty unit, and otherwise it is the type of the byte after any start code |
| H264Renderer.GetNalTypeAfterStartCode | res/app/components/stf/screen/h264-renderer.js:649-658 | the type is read after a 4- or 3-byte start code, or from the first byte when that is not 0 |
| H264Renderer.StripStartCode | res/app/components/stf/screen/h264-renderer.js:719-722 | the unit is its first 4 bytes (after a 4-byte code) or first 3 bytes, followed by the data |
| H264Renderer.DecoderConfigRecord | res/app/components/stf/screen/h264-renderer.js:719-739 | the record is 11 bytes longer than the two parameter sets without their start codes |
| H264Renderer.ParseDecoderConfigRecord | res/app/components/stf/screen/h264-renderer.js:724-739 | a record the reader accepts has version 1, one SPS, and a length that accounts for both sets |
| H264Renderer.DecoderConfigRoundTrip | res/app/components/stf/screen/h264-renderer.js:719-739 | reading back a record built from parameter sets under 64 KiB gives those sets without their start codes |
| H264Renderer.DecoderConfigHeader | res/app/components/stf/screen/h264-renderer.js:726-731 | the header has version 1, the profile and level copied from the SPS, 4-byte NAL lengths and one SPS |
| H264Renderer.BuildDecoderConfig | res/app/components/stf/screen/h264-renderer.js:719-739 | the array written byte by byte holds exactly the record |
| H264Renderer.LengthPrefixed | res/app/components/stf/screen/h264-renderer.js:815-826 | a 4-byte length prefix is followed by the NAL data |
| H264Renderer.LengthPrefixRoundTrip | res/app/components/stf/screen/h264-renderer.js:815-826 | below 4 GiB the prefix reads back as the length of the data |
| H264Renderer.BroadwayUnitsCover | res/app/components/stf/screen/h264-renderer.js:509-548 | the Broadway split gives nothing for no data and the whole chunk when there is no start code; otherwise its units begin with start codes and cover the data from the first one |
| H264Renderer.SplitNalUnits | res/app/components/stf/screen/h264-renderer.js:509-548 | the loop returns the Broadway split |
| H264Renderer.CompleteUnitsConserve | res/app/components/stf/screen/h264-renderer.js:451-507 | the complete units followed by the remainder are the data from the first start code (or the whole data), and a single unit over 100000 bytes is released whole |
| H264Renderer.FindStartPositions | res/app/components/stf/screen/h264-renderer.js:457-471 | the first loop finds exactly the scanned start positions |
| H264Renderer.ExtractCompleteNalUnits | res/app/components/stf/screen/h264-renderer.js:451-507 | the method returns the complete units and the remainder of the specification |
| H264Renderer.DecodeOnlyWhenConfigured | res/app/components/stf/screen/h264-renderer.js:787-838 | a chunk is decoded exactly for a slice (type 1 or 5) when configured, with a usable decoder and at most ten frames in flight |
| H264Renderer.ChunkCarriesUnit | res/app/components/stf/screen/h264-renderer.js:811-838 | a decoded chunk is a key chunk exactly for an IDR; it carries the length-prefixed unit and the next timestamp, and one more frame is in flight |
| H264Renderer.ParameterSetHandling | res/app/components/stf/screen/h264-renderer.js:787-809 | an SPS is stored and unconfigures the decoder; a PPS is stored and configures only when an SPS is waiting; other units leave both sets and the decoder alone |
| H264Renderer.NalStepCoherent | res/app/components/stf/screen/h264-renderer.js:787-809 | processing a unit keeps a configured renderer holding both parameter sets and a configured decoder |
| H264Renderer.SpsThenPpsConfigures | res/app/components/stf/screen/h264-renderer.js:711-759 | an SPS then a PPS configure the decoder with the baseline codec, the default size and the record built from them, and reset the timestamp |
| H264Renderer.ClosedDecoderStaysSilent | res/app/components/stf/screen/h264-renderer.js:741-758 | after a decoder error closes the decoder, no unit is ever decoded again |
| H264Renderer.NalStepsCoherent | res/app/components/stf/screen/h264-renderer.js:779-785 | processing any sequence of units keeps the renderer coherent |
| H264Renderer.WebCodecsRenderer.constructor | res/app/components/stf/screen/h264-renderer.js:578-594 | a new renderer is not running, has no decoder, and has an empty parser |
| H264Renderer.WebCodecsRenderer.Start | res/app/components/stf/screen/h264-renderer.js:660-690 | starting runs the renderer with a fresh, unconfigured decoder (construction failure is not modelled) |
| H264Renderer.WebCodecsRenderer.Stop | res/app/components/stf/screen/h264-renderer.js:692-700 | stopping drops the decoder and the configuration and empties the parser |
| H264Renderer.WebCodecsRenderer.SetSize | res/app/components/stf/screen/h264-renderer.js:702-705 | only the size changes |
| H264Renderer.WebCodecsRenderer.OnDecoderError | res/app/components/stf/screen/h264-renderer.js:678-682 | the decoder closes, the configuration is forgotten and the parser is emptied |
| H264Renderer.WebCodecsRenderer.OnFrameOutput | res/app/components/stf/screen/h264-renderer.js:674-677 | one frame fewer is in flight, and a running renderer adopts the frame's size |
| H264Renderer.WebCodecsRenderer.Configure | res/app/components/stf/screen/h264-renderer.js:711-759 | the fields become those of the configure step |
| H264Renderer.WebCodecsRenderer.DecodeFrame | res/app/components/stf/screen/h264-renderer.js:811-838 | the fields and the chunk are those of the decode step |
| H264Renderer.WebCodecsRenderer.ProcessNalUnit | res/app/components/stf/screen/h264-renderer.js:787-809 | the fields and the chunk are those of one unit step |
| H264Renderer.WebCodecsRenderer.ProcessArrayBuffer | res/app/components/stf/screen/h264-renderer.js:779-785 | the complete units of the pushed buffer are processed in order, and the parser keeps what follows the last start code |
| H264Renderer.WebCodecsRenderer.ProcessData | res/app/components/stf/screen/h264-renderer.js:761-777 | bytes are ignored unless the renderer is running; otherwise they are counted and processed |
| H264Renderer.ReassembleConserves | res/app/components/stf/screen/h264-renderer.js:172-192 | the flushed buffer followed by the new buffer are the old buffer and the data; a flush happens exactly when a chunk opening with a start code meets a non-empty buffer |
| H264Renderer.ReassembleAllConserves | res/app/components/stf/screen/h264-renderer.js:96-104 | over any chunks, the flushed buffers followed by the final buffer are all the bytes, in order |
| H264Renderer.JMuxerRenderer.constructor | res/app/components/stf/screen/h264-renderer.js:20-32 | a new player is idle at 720x1280 with empty buffers |
| H264Renderer.JMuxerRenderer.Start | res/app/components/stf/screen/h264-renderer.js:34-94 | starting creates a muxer that is not ready, empties the queue and keeps the stream buffer (construction failure is not modelled) |
| H264Renderer.JMuxerRenderer.Stop | res/app/components/stf/screen/h264-renderer.js:106-113 | stopping drops the muxer and changes nothing else |
| H264Renderer.JMuxerRenderer.SetSize | res/app/components/stf/screen/h264-renderer.js:115-119 | only the size changes |
| H264Renderer.JMuxerRenderer.FlushBuffer | res/app/components/stf/screen/h264-renderer.js:194-209 | a non-empty buffer is fed to the muxer as one frame when there is a muxer, and dropped otherwise; the buffer is always left empty; the bytes released are the bytes received minus those still buffered |
| H264Renderer.JMuxerRenderer.FeedData | res/app/components/stf/screen/h264-renderer.js:172-192 | the buffer and the released bytes are those of reassembly; the flushed buffer reaches the muxer only when there is one |
| H264Renderer.JMuxerRenderer.ProcessPendingData | res/app/components/stf/screen/h264-renderer.js:96-104 | the queued chunks are reassembled in arrival order and the queue is emptied; the buffers handed on reach the muxer only when there is one |
| H264Renderer.JMuxerRenderer.DecodeData | res/app/components/stf/screen/h264-renderer.js:150-170 | without a muxer nothing happens; before ready the chunk is queued; after ready it is fed |
| H264Renderer.JMuxerRenderer.ProcessData | res/app/components/stf/screen/h264-renderer.js:128-148 | bytes are ignored unless running with a muxer; otherwise they are counted and decoded |
| H264Renderer.JMuxerRenderer.OnReady | res/app/components/stf/screen/h264-renderer.js:66-88 | the player becomes ready and the queue is drained, except when the timer fires after readiness; after `stop` nothing is fed and no frame is counted |
| H264Renderer.SplitEachSnoc | res/app/components/stf/screen/h264-renderer.js:316-324 | splitting one more flushed buffer adds its units at the end |
| H264Renderer.BroadwayRenderer.constructor | res/app/components/stf/screen/h264-renderer.js:215-226 | a new player is idle at 720x1280 with empty buffers |
| H264Renderer.BroadwayRenderer.Start | res/app/components/stf/screen/h264-renderer.js:229-314 | starting creates a player that is not ready and empties the queue (construction failure is not modelled) |
| H264Renderer.BroadwayRenderer.Stop | res/app/components/stf/screen/h264-renderer.js:326-330 | stopping drops the player and changes nothing else |
| H264Renderer.BroadwayRenderer.SetSize | res/app/components/stf/screen/h264-renderer.js:332-336 | only the size changes |
| H264Renderer.BroadwayRenderer.FlushBuffer | res/app/components/stf/screen/h264-renderer.js:422-449 | a non-empty buffer is split into units, each handed to the decoder when there is a player; the buffer is always emptied |
| H264Renderer.BroadwayRenderer.DecodeDataInternal | res/app/components/stf/screen/h264-renderer.js:390-420 | the decoded units are those of the flushed buffer when there is a player, and the buffer is that of reassembly |
| H264Renderer.BroadwayRenderer.ProcessPendingData | res/app/components/stf/screen/h264-renderer.js:316-324 | the queued chunks are reassembled in arrival order and, when there is a player, decoded; the queue is emptied |
| H264Renderer.BroadwayRenderer.DecodeData | res/app/components/stf/screen/h264-renderer.js:367-388 | without a player nothing happens; before ready the chunk is queued; after ready it is decoded |
| H264Renderer.BroadwayRenderer.ProcessData | res/app/components/stf/screen/h264-renderer.js:345-365 | bytes are ignored unless running with a player; otherwise they are counted and decoded |
| H264Renderer.BroadwayRenderer.OnDecoderReady | res/app/components/stf/screen/h264-renderer.js:277-305 | the player becomes ready and the queue is drained; the queued chunks are decoded only when there is a player |
| H264Renderer.Create | res/app/components/stf/screen/h264-renderer.js:987-1012 | WebCodecs wins when offered, then JMuxer over MSE, then Broadway; the fallback is chosen exactly when nothing is supported |
| StreamTypeDetector.GetFirstBytes | res/app/components/stf/screen/stream-type-detector.js:46-57 | byte arrays and buffers yield their first n bytes; anything else yields null |
| StreamTypeDetector.DetectType | res/app/components/stf/screen/stream-type-detector.js:7-44 | the result is `unknown` exactly for a Blob |
| StreamTypeDetector.DetectTypeByFirstByte | res/app/components/stf/screen/stream-type-detector.js:15-43 | with two bytes or more the stream is H.264 exactly when the first byte is 0, and JPEG otherwise; shorter or non-byte input is JPEG |
| StreamTypeDetector.DetectTypeReadsFourBytes | res/app/components/stf/screen/stream-type-detector.js:15-43 | only the first four bytes decide, and a buffer is classified like a byte array |
| StreamTypeDetector.DetectTypeAsync | res/app/components/stf/screen/stream-type-detector.js:59-79 | the result is never `unknown`; non-Blob input is classified directly, and a failed read gives JPEG |
| StreamTypeDetector.DetectTypeAsyncOfBlob | res/app/components/stf/screen/stream-type-detector.js:59-79 | a Blob is classified like a byte array holding its content, and only its first ten bytes matter |
| DeviceInstall.IsInstallationError | lib/units/device/plugins/install.js:24-26 | an error is an installation error exactly when its code begins with `INSTALL_` |
| DeviceInstall.FileName | lib/units/device/plugins/install.js:39 | the name is never empty, and it is the manifest's name when that is given and non-empty |
| DeviceInstall.Decimal | lib/units/device/plugins/install.js:232 | the timestamp is written with decimal digits only, one digit exactly below 10 |
| DeviceInstall.DecimalInjective | lib/units/device/plugins/install.js:232 | different instants give different digit strings |
| DeviceInstall.ChooseBranch | lib/units/device/plugins/install.js:38-42 | push-only manifests push to the temporary directory under the file name; `.apk` names install from a timestamped path; other names install from a fixed path |
| DeviceInstall.ApkTargetsDiffer | lib/units/device/plugins/install.js:232 | two APK installs started at different milliseconds use different device paths |
| DeviceInstall.PmInstallClassifies | lib/units/device/plugins/install.js:253-285 | output with `Success` installs; certificate or downgrade errors trigger one uninstall and retry; any other output fails with itself as the code |
| DeviceInstall.FailureCode | lib/units/device/plugins/install.js:336-359 | a push reports a timeout or unknown error; an install reports a timeout, the installation error's own code, or unknown |
| DeviceInstall.FinalReply | lib/units/device/plugins/install.js:196-229 | the reply is okay exactly when no step failed, with the branch's success code, and otherwise carries the failure's code |
| DeviceInstall.ReplyCodesNameTheirBranch | lib/units/device/plugins/install.js:196-359 | every reply of a push begins with `PUSH_`, and every reply of an install begins with `INSTALL_` |
| DeviceInstall.FailureOutputRepliesUnknown | lib/units/device/plugins/install.js:253-285 | a `Failure ...` output that needs no reinstall is reported as `INSTALL_ERROR_UNKNOWN` |
| DeviceInstall.DownloadProgress | lib/units/device/plugins/install.js:76-82 | download progress is reported only when the content length is known and non-zero |
| DeviceInstall.DownloadProgressBounds | lib/units/device/plugins/install.js:76-82 | download progress stays within 0..25 |
| DeviceInstall.Clamp01 | lib/units/device/plugins/install.js:116 | the ratio is clamped to 0..1 |
| DeviceInstall.PushProgress | lib/units/device/plugins/install.js:113-118 | push progress stays within 25..50, and is undefined only for an empty file with nothing sent |
| DeviceInstall.PushProgressMonotone | lib/units/device/plugins/install.js:113-118 | more bytes sent never lower push progress, and a finished push reports 50 |
| DeviceInstall.NextGuessBounds | lib/units/device/plugins/install.js:289-295 | the guesstimate stays within 50..90, never decreases, and below 90 grows without reaching 90 |
| DeviceInstall.InstallProgress.constructor | lib/units/device/plugins/install.js:241-245 | the guesstimate starts at 50 |
| DeviceInstall.InstallProgress.Tick | lib/units/device/plugins/install.js:289-295 | each tick reports the new guesstimate, which grows strictly below 90 and stays at 90 once there |
| DeviceInstall.ActivityPart | lib/units/device/plugins/install.js:305-311 | an activity name without a dot gets a leading dot; other names are kept |
| DeviceInstall.LaunchRequest | lib/units/device/plugins/install.js:301-327 | a launch happens exactly when asked for and a launcher activity is known; it uses the first activity with the MAIN action, the LAUNCHER category and the new-task flags |
| DeviceInstall.LaunchProgress | lib/units/device/plugins/install.js:322 | launching reports 95 on the APK branch and 90 on the other install branch |
| DeviceInstall.BlobId | lib/units/device/plugins/install.js:177-191 | the blob id is the fourth part of the href and holds no slash |
| DeviceInstall.BlobIdOfTempHref | lib/units/storage/temp.js:62-67 | for an href the storage service builds, the id extracted is the one stored |
| DeviceInstall.CleanupPath | lib/units/device/plugins/install.js:177-191 | cleanup is requested exactly when a blob id can be extracted |
| InstallService.Installation.constructor | res/app/components/stf/install/install-service.js:14-23 | a new installation is unsettled at 0% in its initial state, with launch set |
| InstallService.Installation.Update | res/app/components/stf/install/install-service.js:42-46 | progress becomes the floor of the value and the state is replaced |
| InstallService.Installation.Okay | res/app/components/stf/install/install-service.js:48-54 | the installation settles successfully at 100% in the given state |
| InstallService.Installation.Fail | res/app/components/stf/install/install-service.js:56-62 | the installation settles unsuccessfully at 100%, records the error and keeps its state |
| InstallService.FailureText | res/app/components/stf/install/install-service.js:172-174 | the error shown is the code when it is non-empty, and otherwise the message |
| InstallService.OriginalFileName | res/app/components/stf/install/install-service.js:94 | the name is that of the first selected file |
| InstallService.ChoosePlan | res/app/components/stf/install/install-service.js:95-116 | an `.ipa` on iOS is installed; otherwise `.apk`/`.aab` files are installed as packages and any other file is pushed |
| InstallService.RequestManifest | res/app/components/stf/install/install-service.js:116-167 | a push carries the push-only flag and the file's name as package; an iOS request never does; an Android request passes the stored manifest on, flag included, with the original file name added |
| InstallService.RequestLaunch | res/app/components/stf/install/install-service.js:119-162 | a pushed file is never launched; installs use the installation's flag |
| InstallService.PushOnlyExactlyOnPushPlan | res/app/components/stf/install/install-service.js:116-167 | for a stored manifest as the APK reader yields it, a request is push-only exactly on the push plan |
| InstallService.StoredPushOnlyFlagIsForwarded | res/app/components/stf/install/install-service.js:129-141 | a stored manifest carrying the push-only flag would make the device push an `.apk` instead of installing it |
| InstallService.PlanReachesDeviceBranch | res/app/components/stf/install/install-service.js:116-167 | for a stored manifest as the APK reader yields it, the browser's plan and the plugin's branch agree: a push exactly for the push plan, to the file's own name |
| InstallService.UploadProgress | res/app/components/stf/install/install-service.js:107-111 | upload progress is reported only for a computable, non-zero total, and fills 0..50 |
| InstallService.InstallStepProgress | res/app/components/stf/install/install-service.js:124-126 | the device's 0..100 fills the second half, 50..100 |
| InstallService.ProgressContinuesAcrossHalves | res/app/components/stf/install/install-service.js:107-126 | the bar never goes back when the upload ends and the install starts |
| InstallService.IpaOnAndroidReportedInstalled | res/app/components/stf/install/install-service.js:169-171 | an `.ipa` chosen on Android is pushed, yet reported as installed |
| InstallService.FinalState | res/app/components/stf/install/install-service.js:169-171 | the corrected state is `pushed` exactly on the push plan, and `installed` otherwise |
| InstallService.FinalStateMatchesDevice | res/app/components/stf/install/install-service.js:116-171 | for a stored manifest as the APK reader yields it, the corrected state says `pushed` exactly when the device pushed the file |
| InstallService.FinalStateAsWrittenDiffers | res/app/components/stf/install/install-service.js:169-171 | the written state differs from the corrected one exactly for an `.ipa` outside iOS |
| BatchCreateUsers.FilterLines | scripts/batch-create-users.js:39 | exactly the lines that are not blank and not comments are kept |
| BatchCreateUsers.ValidEmailMatchesPattern | scripts/batch-create-users.js:52-53 | the character-level address test is equivalent to the pattern `^[^\s@]+@[^\s@]+\.[^\s@]+$` |
| BatchCreateUsers.Parts | scripts/batch-create-users.js:45 | splitting always yields at least one part |
| BatchCreateUsers.ParseLineCases | scripts/batch-create-users.js:43-60 | fewer than two parts is a malformed line; otherwise the line is accepted exactly when the trimmed address matches, and then the name is trimmed |
| BatchCreateUsers.PatternAddressIsTrimmed | scripts/batch-create-users.js:48-53 | a matching address is non-empty and free of white space, so trimming keeps it |
| BatchCreateUsers.ParseOfTwoParts | scripts/batch-create-users.js:43-54 | a trimmed line splitting into a valid address and a trimmed name reads back as that user |
| BatchCreateUsers.CommaLineRoundTrip | scripts/batch-create-users.js:43-54 | writing `email,name` and parsing it gives back that user |
| BatchCreateUsers.SpaceLineRoundTrip | scripts/batch-create-users.js:43-54 | writing `email name` with a one-word name and parsing it gives back that user |
| BatchCreateUsers.AcceptedUsers | scripts/batch-create-users.js:41-61 | there are never more users than lines |
| BatchCreateUsers.Warnings | scripts/batch-create-users.js:56-59 | every warning names a line number from 1 to the number of lines |
| BatchCreateUsers.AcceptedUsersValid | scripts/batch-create-users.js:52-54 | every accepted address matches the pattern |
| BatchCreateUsers.UsersAndWarningsPartition | scripts/batch-create-users.js:41-61 | every kept line gives either a user or a warning |
| BatchCreateUsers.WarningsIncrease | scripts/batch-create-users.js:41-61 | warnings come in line order, at most one per line |
| BatchCreateUsers.ParseUsers | scripts/batch-create-users.js:41-61 | the loop returns the accepted users and the warnings, which together account for every line |
| BatchCreateUsers.CountInserted | scripts/batch-create-users.js:76-92 | the number of insertions is at most the number of attempts |
| BatchCreateUsers.CountOutcomes | scripts/batch-create-users.js:76-92 | each attempt counts once, as a success exactly when the user was inserted |
| BatchCreateUsers.Run | scripts/batch-create-users.js:20-92 | the script stops for a missing argument, a missing file, no valid user or a failed setup, each exactly in its case; otherwise the counts add up to the users |
| DeviceControl.ValueOrDevice | res/app/control-panes/device-control/device-control-controller.js:86-100 | an omitted value falls back to the device's rotation |
| DeviceControl.OrientationsPartition | res/app/control-panes/device-control/device-control-controller.js:86-100 | no angle is both portrait and landscape, and exactly 0, 90, 180 and 270 are either |
| DeviceControl.RotationLabel | res/app/control-panes/device-control/device-control-controller.js:166-172 | the label follows a reported quarter turn and is otherwise kept |
| DeviceControl.RotateLeftAngle | res/app/control-panes/device-control/device-control-controller.js:175-185 | a left turn from 0 (or from an unknown device) asks for 270, and otherwise for 90 less |
| DeviceControl.RotateRightAngle | res/app/control-panes/device-control/device-control-controller.js:192-202 | a right turn from 270 asks for 0, from an unknown device for 90, and otherwise for 90 more |
| DeviceControl.RotationsAreInverse | res/app/control-panes/device-control/device-control-controller.js:175-202 | on the four angles the turns are quarter turns modulo 360 and undo each other |
| DeviceControl.FourTurnsIdentity | res/app/control-panes/device-control/device-control-controller.js:192-202 | four right turns come back to the start |
| DeviceControl.OffGridAnglesDrift | res/app/control-panes/device-control/device-control-controller.js:175-202 | an angle off the grid is moved by 90 without wrapping |
| DeviceControl.RequestedAngle | res/app/control-panes/device-control/device-control-controller.js:102-118 | portrait asks for 0 and landscape for 90; any other name asks for nothing |
| DeviceControl.LabelAfterTry | res/app/control-panes/device-control/device-control-controller.js:105-116 | when the device still shows the other orientation 400 ms later, the label follows it; it only ever changes to an orientation |
| DeviceControl.ParseLocked | res/app/control-panes/device-control/device-control-controller.js:130-133 | the rotation is locked exactly when the trimmed output is `0` |
| DeviceControl.ToggleValue | res/app/control-panes/device-control/device-control-controller.js:145 | a toggle writes `0` exactly when the rotation was unlocked |
| DeviceControl.ToggleThenReadAgrees | res/app/control-panes/device-control/device-control-controller.js:127-155 | reading the setting back after a toggle's write gives the flipped flag |
| DeviceControl.WriteLockCommand | res/app/control-panes/device-control/device-control-controller.js:145-146 | the write command puts the toggle value into `accelerometer_rotation` |
| DeviceControl.ControlPane.constructor | res/app/control-panes/device-control/device-control-controller.js:9-124 | the pane starts expanded, in portrait, unlocked, with nothing requested |
| DeviceControl.ControlPane.ToggleDeviceHeader | res/app/control-panes/device-control/device-control-controller.js:11-14 | the header flips and the stored flag matches it |
| DeviceControl.ControlPane.ToggleFullscreen | res/app/control-panes/device-control/device-control-controller.js:17-24 | the header collapses and `true` is stored |
| DeviceControl.ControlPane.OnRotationChanged | res/app/control-panes/device-control/device-control-controller.js:166-172 | the label becomes the rotation label of the new value |
| DeviceControl.ControlPane.RotateLeft | res/app/control-panes/device-control/device-control-controller.js:175-190 | one rotation request for the left-turn angle is added |
| DeviceControl.ControlPane.RotateRight | res/app/control-panes/device-control/device-control-controller.js:192-207 | one rotation request for the right-turn angle is added |
| DeviceControl.ControlPane.TryToRotate | res/app/control-panes/device-control/device-control-controller.js:102-118 | the requested angle is sent, if any, and the label is the one after the delayed check |
| DeviceControl.ControlPane.ReadRotationLock | res/app/control-panes/device-control/device-control-controller.js:127-140 | with a shell the read command is issued, and the flag follows its output when it answers |
| DeviceControl.ControlPane.ToggleRotationLock | res/app/control-panes/device-control/device-control-controller.js:143-155 | with a shell the write command is issued, and the flag flips only when it succeeds |

## Left out

- Keyframe re-injection: an SPS or PPS that arrives with an IDR replaces the configuration before the IDR is forwarded, so the previous parameter sets are not re-injected in front of it; `Scrcpy.KeyframeCarriesItsOwnParameterSets` states this.
- Sockets, adb commands, port forwarding, server push, retries and the connection timeout of the scrcpy client are left out. Each start step is reduced to its outcome.
- The per-connection flag `handshakeCompleteLogged` and all logging are left out.
- `Buffer.toString('utf8')` is a function parameter, since UTF-8 decoding is not modelled.
- The mixed-group `return null` when no unit remains is not modelled, because no payload can reach it: a group that is not configuration-only always keeps a unit.
- The relay's WebSocket server, the ping timer, JSON encoding and the `size` message are left out. Send failures are a set of failing ids; message text is replaced by a value.
- The frame producer's error forwarding and the random local port are left out.
- Decoder internals of WebCodecs, JMuxer and Broadway are left out. Their callbacks (output, error, ready) are separate methods.
- Canvas drawing is left out: `_renderFrame` apart from the size it adopts, `_updateDisplay`, the fallback renderer's text display and `getVideoDimensions`.
- Broadway's `_getNALType` only feeds log messages and is not modelled.
- An exception thrown by `configure` or `decode` on a live decoder is not modelled. Only the closed decoder left by an error callback is modelled.
- `H264Renderer.WebCodecsRenderer.OnDecoderError`: the decoder is taken to be closed after an error, as WebCodecs does. The controller's own code does not set this.
- `H264Renderer.ParseDecoderConfigRecord` reads only records with one SPS and one PPS, the only shape the renderer builds.
- The install plugin's HTTP download, temporary files, stream events and `periodicNotify` timing are left out. Each step is reduced to its outcome or its progress formula.
- The plugin's uninstall handler is left out.
- `DeviceInstall.BlobIdOfTempHref` covers hrefs of the storage service's form only.
- `installUrl` in the install service is left out beyond the progress formulas it shares with `installFile`.
- The broadcast and change events of the install service are left out.
- `DeviceInstall.PushProgress` returns no value for an empty file with nothing transferred, where the source reports NaN.
- `H264Renderer.WebCodecsRenderer.Start` always succeeds: a `VideoDecoder` constructor that throws, which makes `start` return false, is not modelled.
- `H264Renderer.JMuxerRenderer.Start` always succeeds: a DOM or JMuxer constructor that throws, which makes `start` return false, is not modelled.
- `H264Renderer.BroadwayRenderer.Start` always succeeds: a Broadway `Player` constructor that throws, which makes `start` return false, is not modelled.
- `ScrcpyStream.Relay`: after a failed start, or after the device closes the connection, clients stay subscribed to a producer that is not running, and nothing restarts it until every client leaves; the model keeps this, and promises only that the producer has been started exactly while somebody is subscribed.
- `InstallService.UploadProgress` returns no value for a zero total, where JavaScript would produce NaN or Infinity.
- The database setup and `createUser` are parameters of the batch script. The 100 ms pause and console output are left out.
- Reading the command-line argument and the file's text are parameters of `BatchCreateUsers.Run`.
- `kickDevice`, `controlDevice`, the group tracker and location handling of the control pane are left out.
- The standalone window resize after a rotation is left out.
- `localStorage` is a field, not browser storage.
- `DeviceControl.RotateLeftAngle` and `DeviceControl.RotateRightAngle` take a missing device rotation as 0. An undefined rotation inside a present display, which gives NaN in JavaScript, is not modelled.

## Findings

| source | as written | input that shows it | evidently intended | confidence | as-written member | corrected member |
|---|---|---|---|---|---|---|
| res/app/components/stf/install/install-service.js:169-171 | the final state is `installed` whenever the name ends in `.apk`, `.aab` or `.ipa` | `app.ipa` chosen on an Android device: it is pushed, not installed, yet reported as `installed` | `pushed` exactly when the file was pushed | not executed | InstallService.IpaOnAndroidReportedInstalled | InstallService.FinalStateMatchesDevice |
