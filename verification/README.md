# PulseLink in Dafny

PulseLink is a telemetry pipeline. Firmware samples a sensor and sends framed packets over TCP; a
threaded server checks, acknowledges and stores them; a kernel device buffers the records; image
frames travel in chunks and are reassembled, filtered and saved. This project models the parts of it
that carry invariants and proves what they promise for every input, every run and every interleaving.

`dafny verify dfyconfig.toml` checks the whole project. Modules follow the source files:

| module | what it models |
|---|---|
| `Bytes`, `Options` | fixed-width integers, wrapping counters, byte orders; optional values |
| `Checksum`, `Burst` | `common/checksum.c`: the RFC 1071 checksum (section 2 of RFC 1071), its collisions, and the bursts it detects |
| `Wire`, `Telemetry` | `common/wire.c` and the firmware's own builders and parser |
| `NetUtil` | `common/netutil.c`: exact reads and writes over partial receives and sends |
| `Frame`, `FrameHistory`, `FrameAssembler` | `imaging/frame.c`: the chunk format, the reassembler as a specification and as the source has it, and its histories |
| `Worker`, `WorkerRuns`, `WorkerFraming`, `WorkerCases`, `ClientWorker` | `server/client_handler.c`: one connection as a transition function, its invariants over all runs, framing over any byte stream, what each kind of packet does from bytes to acts, and the loop itself |
| `DeviceTable`, `DeviceTableRuns`, `DeviceTableCalls` | `server/device_table.c`: the chained hash table, its double-checked insert under any number of threads, and that calls are answered |
| `Tring`, `TelemetryDriver` | `kmod/tring.c` and the locked sections of `kmod/telemetry_drv.c` |
| `RingLog` | `server/ring_log.c` under any number of writers |
| `Raster`, `Convolve`, `ConvolveLaws` | `imaging/convolve.c`: the filters, their loops and their symmetries |
| `Bmp`, `BmpFiles` | `imaging/bmp.c`: the file format, writer and reader |
| `Uplink` | the two tasks of `firmware/pulselink_fw.ino` |
| `Listener` | admission of connections in `server/tcp_listener.c` |

Code that changes things in place is modelled by classes and by methods over arrays; each is proved
equal to a function on values, and the properties are proved about that function. Concurrency is
modelled as a transition system in which every lock-protected section and every atomic operation is
one step. Time, allocation failures, failed sends, the network and user-memory faults are inputs:
they appear as parameters (`Env`, `World`, `Event`, `Input`, booleans) and every property holds for
every value of them.

## Where the code differs from what is said about it

- A comment in `imaging/frame.c:114` says that duplicate chunks are ignored. They are not counted
  again, but their bytes are copied (`imaging/frame.c:118`), so the last delivery of a chunk wins.
  The model does the same, and `FrameHistory.CompletedImage` is stated for it.
- The range check at `imaging/frame.c:90` can never fire (`Frame.CountBounds`).
- The deferred carries of `common/checksum.c` are the RFC 1071 sum only while no carry is lost above
  bit 31. `Checksum.DeferredCarryExact` says exactly when the two agree, `Checksum.WrapBreaksRfc1071`
  gives an input one word beyond the safe length on which they differ.
- Appending the checksum makes the checksum zero for every even length; for an odd length it does so
  exactly when 257 divides the word sum (`Checksum.SelfVerifying`).
- `server/client_handler.c:178-183` reads sixteen payload bytes of a SENSOR packet whatever its
  length; the model reads the same bytes of the same buffer.
- A bad FRAME chunk is reported with the error code for oversized packets
  (`server/client_handler.c:209`).
- `dt_record_sensor` counts on the device of the HELLO while the record carries the packet's own
  device id, so records are conserved in total and not per device
  (`DeviceTableRuns.RecordsConservedFromStart`).

## Model

| member | source | states |
|---|---|---|
| `Checksum.Compute` | common/checksum.c:15-37 | the two loops over the buffer compute the 16-bit sum of the specification, for every buffer |
| `Checksum.FoldCarries` | common/checksum.c:32-34 | the carry loop terminates with the folded sum |
| `Checksum.FoldIsResidue` | common/checksum.c:32-34 | folding gives the representative modulo 65535 that ones'-complement addition settles on |
| `Checksum.FoldRounds` | common/checksum.c:32-34 | each round strictly decreases a sum above 16 bits, and two rounds always suffice |
| `Checksum.NoWrap` | common/checksum.c:17-30 | up to 131074 bytes the 32-bit accumulator never wraps, at any point of the loop |
| `Checksum.OnesSumIsResidue` | common/checksum.c:20-30 | adding words with immediate end-around carry gives the residue of the exact sum |
| `Checksum.DeferredCarryExact` | common/checksum.c:15-37 | deferred and immediate carries agree if and only if the carries lost above bit 31 are a multiple of 65535 and a nonzero sum is not reduced to zero |
| `Checksum.DeferredCarryIsRfc1071` | common/checksum.c:15-37 | on every buffer of at most 131074 bytes the routine is the RFC 1071 checksum |
| `Checksum.WrapBreaksRfc1071` | common/checksum.c:17-24 | a buffer one word longer on which it is not |
| `Checksum.Collision` | common/checksum.c:15-37 | two buffers have equal checksums if and only if their word sums are congruent modulo 65535 and both zero or both nonzero |
| `Checksum.SelfVerifying` | common/checksum.c:15-37 | appending the checksum high byte first makes the checksum zero if and only if the length is even or 257 divides the word sum |
| `Burst.WordSumIsBitSum` | common/checksum.c:20-30 | the word sum as a sum over bits in transmission order |
| `Burst.BurstCongruence` | common/checksum.c:15-37 | a burst anywhere leaves the sum unchanged modulo 65535 if and only if it leaves its own window unchanged modulo 65535 |
| `Burst.BurstUndetected` | common/checksum.c:15-37 | a corruption of at most 16 consecutive bits goes undetected if and only if it changes nothing, or turns sixteen equal bits over in a payload nonzero before and after |
| `Burst.BurstDetected` | common/checksum.c:15-37 | every corruption confined to 15 consecutive bits, also across two words, is detected |
| `Bytes.Shifts32` | firmware/telemetry.c:26-32 | the four bytes of a 32-bit value are its shifts, high byte first on the wire and low byte first in files |
| `Bytes.Shifts16` | firmware/telemetry.c:20-24 | the two bytes of a 16-bit value, high byte first |
| `Wire.HeaderFields` | common/wire.c:15-24 | each header field at its offset |
| `Wire.Build` | common/wire.c:8-28 | a packet that fits is written whole, one that does not fit writes nothing, and nothing beyond it changes |
| `Wire.ParseHeader` | common/wire.c:30-40 | the parsed header is the one whose bytes were given |
| `Wire.HeaderRoundTrip` | common/wire.c:15-40 | parsing inverts building |
| `Wire.HeaderOfBytes` | common/wire.c:30-40 | building inverts parsing: twelve bytes and a header determine each other |
| `Wire.PacketRoundTrip` | common/wire.c:8-40 | the receiver of a built packet sees its fields, its payload and a matching checksum |
| `Telemetry.PutHeader` | firmware/telemetry.c:34-44 | the firmware's header in front of a payload makes the packet the server's builder makes |
| `Telemetry.BuildSensor` | firmware/telemetry.c:46-59 | byte for byte the server's packet on the big-endian payload, negative values included; too small a buffer stays untouched |
| `Telemetry.BuildHello` | firmware/telemetry.c:61-71 | byte for byte the server's packet |
| `Telemetry.BuildHeartbeat` | firmware/telemetry.c:73-83 | byte for byte the server's packet |
| `Telemetry.ParseHeaderFw` | firmware/telemetry.c:85-95 | accepted if and only if magic and version are right, and then the server's header fields |
| `Telemetry.SensorRoundTrip` | firmware/telemetry.c:46-59 | the server reads back what the firmware measured |
| `Telemetry.SensorBytes` | firmware/telemetry.c:52-56 | the sixteen payload bytes: sequence, time, temperature and humidity, each four bytes high byte first, negative values modulo 2^32 |
| `NetUtil.Recv` | common/netutil.c:14-23 | one receive takes at most what was asked for off the front of the stream, into its place in the buffer |
| `NetUtil.ReadN` | common/netutil.c:8-25 | the outcome, the bytes and what is left depend only on the byte stream, not on how it is cut into receives or interrupted |
| `NetUtil.PullExact` | common/netutil.c:8-25 | bytes that arrive without a timeout are read whole, and nothing after them is touched |
| `NetUtil.PullStops` | common/netutil.c:15-19 | a timeout or an error ends a read that is still short |
| `NetUtil.PullShort` | common/netutil.c:13-24 | what a read does when the stream ends, times out or fails before it is full |
| `NetUtil.WriteN` | common/netutil.c:27-42 | how much gets onto the wire and what is returned, exactly, for every sequence of partial sends, interruptions and errors |
| `Frame.CountBounds` | imaging/frame.h:27-30 | within the pixel cap the chunk count is the rounded-up quotient, and an index is below it exactly when it starts inside the image |
| `Frame.DecodeExact` | imaging/frame.c:67-96 | a payload is accepted if and only if it is the encoding of that well-formed chunk |
| `Frame.HeaderSpelled` | imaging/frame.c:32-37 | twelve bytes are a chunk's header if and only if they hold its fields, each at its offset and high byte first |
| `Frame.AcceptCollected` | imaging/frame.c:98-127 | accepting a chunk: the frame completes exactly when every index has arrived |
| `Frame.WholeFrame` | imaging/frame.c:114-126 | a frame with all its chunks has a byte for every pixel, from its own place in its own chunk |
| `FrameHistory.CompletedImage` | imaging/frame.c:64-127 | for every sequence of calls whatever, a completed image has the announced size and each pixel is the byte the last chunk covering it carried there, counted from the call at which the frame last began |
| `FrameHistory.LastWriterIsLast` | imaging/frame.c:114-118 | no later delivery of the same chunk intervenes |
| `FrameHistory.RejectionsKeepState` | imaging/frame.c:67-104 | a malformed chunk changes nothing; only a failed allocation drops the collection |
| `FrameHistory.RefusedExactly` | imaging/frame.c:64-127 | a call is refused if and only if its payload is the encoding of no well-formed chunk, or an allocation it needs fails: the buffer when a frame begins, the image when the chunk is the last one missing |
| `FrameHistory.ChunkDecodes` | imaging/frame.c:21-50 | every built chunk passes the reassembler's checks as itself |
| `FrameHistory.AnyOrderDelivers` | imaging/frame.c:21-127 | the chunks of an image in any order with repetitions give "more" until the first prefix that covers every index, and then exactly that image |
| `FrameAssembler.BuildChunk` | imaging/frame.c:21-50 | the chunk packet is the server's FRAME packet on frame header and pixels; oversized chunks and small buffers are refused |
| `FrameAssembler.ReadChunk` | imaging/frame.c:67-96 | the in-place checks decide as the specification does |
| `FrameAssembler.Assembler.Reset` | imaging/frame.c:57-62 | the reassembler is idle again |
| `FrameAssembler.Assembler.Feed` | imaging/frame.c:64-127 | buffer, flags and counter together act as the specification on the collected chunks: same result, same next state, and -1, 0 or 1 returned accordingly |
| `WorkerRuns.EveryRun` | server/client_handler.c:67-257 | over every run: strikes are the faults since the last accepted packet and below three while the loop turns; each fault after HELLO is counted once; nothing is taken before HELLO_ACK; ACKs keep their cadence |
| `WorkerRuns.OrderlyTrace` | server/client_handler.c:155-174 | no record, ACK or chunk precedes the delivered HELLO_ACK |
| `WorkerRuns.CounterModEight` | server/client_handler.c:196-200 | the 32-bit packet counter wraps without disturbing the count of eights |
| `WorkerRuns.StepMoves` | server/client_handler.c:88-247 | every turn of the loop is one of six moves on the control state and the trace |
| `WorkerFraming.StepOnPacket` | server/client_handler.c:90-153 | a built packet at the head of the stream is received whole and dispatched |
| `WorkerFraming.RecoversPackets` | server/client_handler.c:88-153 | for every list of packets the byte-stream worker does exactly what the packet-level worker does, up to the point where it closes |
| `WorkerFraming.AnySegmentation` | server/client_handler.c:88-153 | the same however the bytes are cut into receives |
| `WorkerFraming.NoFramingErrors` | server/client_handler.c:114-153 | built packets never cause a magic, version or checksum error, nor a size error where there is no FRAME packet whose rejection shares its code (with FRAME packets, `WorkerFraming.RecoversPackets` rules it out) |
| `WorkerFraming.ImageOverTheWire` | server/client_handler.c:88-235 | HELLO and the chunks of an image in any order, over any segmentation: the worker greets the device and reassembles exactly that image, with no strike |
| `WorkerCases.BadHeaderPunished` | server/client_handler.c:115-135 | a header with the wrong magic, version or length: that error is sent, a known device is charged, one strike, the third breaks the loop, and nothing else changes |
| `WorkerCases.BadChecksumPunished` | server/client_handler.c:138-153 | a payload that does not sum to the header's checksum: the same, with the checksum error, and nothing is dispatched |
| `WorkerCases.CorruptionPunished` | server/client_handler.c:138-153 | a built packet whose payload is corrupted within 15 consecutive bits is always punished as a checksum error and never taken |
| `WorkerCases.FirstMustBeHello` | server/client_handler.c:156-161 | any other packet before HELLO is answered with an error and ends the connection, and nothing else happens |
| `WorkerCases.HelloGreeted` | server/client_handler.c:156-174 | HELLO is answered with the session number; a delivered answer makes the connection active, an undelivered one ends it |
| `WorkerCases.SecondHelloIgnored` | server/client_handler.c:237-239 | HELLO on an active connection changes nothing |
| `WorkerCases.SensorStored` | server/client_handler.c:178-203 | every SENSOR packet on an active connection is counted, stored and, each eighth, acknowledged |
| `WorkerCases.MeasurementStored` | server/client_handler.c:178-203 | the stored record is what the firmware measured, with the packet's device and the server's time |
| `WorkerCases.MalformedFramePunished` | server/client_handler.c:204-211 | a FRAME packet that spells no chunk is answered, charged and punished, and the reassembler is untouched |
| `WorkerCases.FrameAccepted` | server/client_handler.c:204-236 | a FRAME packet that spells a chunk is taken, strikes are forgotten, and the frame completes exactly when the chunk is the last one missing |
| `WorkerCases.OtherTypesPunished` | server/client_handler.c:240-245 | a packet of any other type is answered, charged and punished |
| `WorkerCases.SilenceReaped` | server/client_handler.c:93-100 | a peer silent for fifteen receive timeouts is dropped, and not before; nothing else is done |
| `WorkerCases.CutHeaderEnds` | server/client_handler.c:92-109 | a stream that ends or fails inside a header ends the connection and does nothing else |
| `WorkerCases.CutPayloadEnds` | server/client_handler.c:137-144 | a stream that ends, fails or times out inside a payload ends the connection and does nothing else |
| `ClientWorker.Client.TakeSensor` | server/client_handler.c:178-203 | the SENSOR case: record, sink write, every eighth ACK |
| `ClientWorker.Client.TakeFrame` | server/client_handler.c:204-236 | the FRAME case: a strike for a rejected chunk, none otherwise |
| `ClientWorker.Client.Handle` | server/client_handler.c:155-246 | the dispatch is the specification's |
| `ClientWorker.Client.Take` | server/client_handler.c:114-153 | framing checks, payload and checksum as specified, leaving the same bytes on the socket |
| `ClientWorker.Client.Turn` | server/client_handler.c:88-247 | one turn of the loop is one step of the specification |
| `ClientWorker.Client.Serve` | server/client_handler.c:88-247 | the whole loop is a run of the specification |
| `DeviceTable.SameBucket` | server/device_table.c:8-12 | two ids share a bucket if and only if they are congruent modulo 64 |
| `DeviceTable.HashLowBits` | server/device_table.c:8-12 | the bucket of an id: its low six bits times 49, modulo 64 |
| `DeviceTable.Find` | server/device_table.c:38-44 | the walk finds the node with that id if there is one, and only then |
| `DeviceTable.InsertKeepsSound` | server/device_table.c:64-80 | linking a fresh node keeps every chain exactly the nodes of its bucket |
| `DeviceTable.Registry.GetOrCreate` | server/device_table.c:46-83 | alone, the call returns the node of that id and changes nothing if there is one, and otherwise adds one new device, online and seen now with all counters zero |
| `DeviceTableRuns.EveryInterleaving` | server/device_table.c:38-83 | in every interleaving of any number of threads: no wild pointer, one node per id, on its own bucket's chain and no other, and a device count equal to the node count outside the write lock |
| `DeviceTableRuns.SameIdSameNode` | server/device_table.c:46-83 | two calls get the same node if and only if they asked for the same id |
| `DeviceTableRuns.NodesAreForever` | server/device_table.c:64-109 | no node disappears and none changes its id or session |
| `DeviceTableRuns.RecordsConserved` | server/device_table.c:85-94 | every step keeps the sum of `packets_ok` equal to sink writes plus workers on their way to one |
| `DeviceTableRuns.RecordsConservedFromStart` | server/client_handler.c:185-194 | so it holds in every reachable state |
| `DeviceTableCalls.EveryCallAnswered` | server/device_table.c:46-83 | in every interleaving in which no allocation fails no call returns empty-handed, and the calls made are the calls returned plus those under way |
| `DeviceTableCalls.CallAlone` | server/device_table.c:46-83 | a call that nobody disturbs runs to its end, releases both locks, and does what the uncontended operation promises, creation and failed allocation included |
| `DeviceTableCalls.OkPacketsCounted` | server/device_table.c:85-94 | in every interleaving the recorded packets are the sink writes made plus those under way, and the counters of all devices add up to them, modulo 2^64 |
| `DeviceTableCalls.BadPacketsCounted` | server/device_table.c:96-100 | the bad-packet counters of all devices add up to the bad packets reported, modulo 2^64 |
| `Tring.TailSlot` | kmod/tring.c:39 | the unsigned subtraction that may wrap still names the oldest slot |
| `Tring.Ring.Init` | kmod/tring.c:4-10 | the empty queue |
| `Tring.Ring.PushRecord` | kmod/tring.c:12-30 | the ring is a queue of at most 256 that drops its oldest record, and says when |
| `Tring.Ring.PopRecord` | kmod/tring.c:32-43 | the oldest record comes out, or the queue was empty and is unchanged |
| `Tring.Ring.ReadBatch` | kmod/telemetry_drv.c:85-88 | the oldest records, as many as asked for, batched and available |
| `TelemetryDriver.EveryInterleaving` | kmod/telemetry_drv.c:41-94 | in every interleaving of writers, readers and resets, since the last reset: the ring is the last records pushed, each read took a nonempty contiguous run in order, no record was taken twice, and produced equals dropped plus taken plus held |
| `TelemetryDriver.StepKeepsInv` | kmod/telemetry_drv.c:132-136 | every locked section keeps this, resets included |
| `TelemetryDriver.RunTold` | kmod/telemetry_drv.c:41-136 | over every run the history, computed from the acts alone, is each writer's records in the order pushed since the last reset; a reset forgets history and batches and disturbs no write in progress |
| `TelemetryDriver.ReadTakes` | kmod/telemetry_drv.c:85-88 | a read takes the oldest records: as many as fit, 32, or all there are |
| `TelemetryDriver.WriteAlone` | kmod/telemetry_drv.c:41-62 | the steps of a write that nobody disturbs leave what the driver's write promises |
| `TelemetryDriver.SleptExact` | kmod/telemetry_drv.c:76-83 | a signal ends a sleep with the ring as it was, and the first wake-up that finds records ends it with those |
| `TelemetryDriver.Driver.Write` | kmod/telemetry_drv.c:41-62 | the records before the first faulting one are pushed in order; the return value says which case |
| `TelemetryDriver.Driver.Read` | kmod/telemetry_drv.c:65-94 | what a read returns and what leaves the ring in each case, for nonblocking files and for sleeps that end in data, in nothing or in a signal |
| `TelemetryDriver.PushAllKeepsLatest` | kmod/tring.c:12-30 | any number of pushes leave the last 256 records |
| `RingLog.EveryInterleaving` | server/ring_log.c:34-45 | in every interleaving of any number of writers the ring holds the last 1024 records in the order of the locked sections, no increment is lost, and each counter lags by exactly the threads that still owe it one |
| `RingLog.HistoryIsHanded` | server/ring_log.c:34-39 | the order of the locked sections loses and invents no record |
| `RingLog.WriteAlone` | server/ring_log.c:34-45 | the steps of a write that nobody disturbs store its record and count it once, and once more as overwriting after the first 1024 |
| `RingLog.OverwritingExact` | server/ring_log.c:41-43 | below 2^64 writes exactly those after the first 1024 count as overwriting |
| `RingLog.Quiescent` | server/ring_log.c:34-45 | once all writes have finished the counters are exact |
| `RingLog.FillExact` | server/ring_log.c:53 | the fill level shown is right if and only if the 64-bit head has not just wrapped |
| `RingLog.DumpNewestFirst` | server/ring_log.c:57-60 | every slot a dump reads holds the record stored that many writes ago, also across the wrap of the head |
| `RingLog.Sink.WriteRecord` | server/ring_log.c:34-45 | one write alone performs the three steps |
| `RingLog.Sink.Dump` | server/ring_log.c:47-64 | the loop shows the newest records, at most five |
| `Convolve.RoundRootNearest` | imaging/convolve.c:70 | the magnitude is the one integer within one half of the square root |
| `Convolve.Accumulate` | imaging/convolve.c:41-46 | the two tap loops compute the weighted sum of the clamped neighbourhood |
| `Convolve.Conv3x3` | imaging/convolve.c:36-52 | bad arguments are refused and change nothing; otherwise the output is the filtered image of the specification |
| `Convolve.SobelFilter` | imaging/convolve.c:54-75 | the same for the edge filter |
| `Raster.SampleNearest` | imaging/convolve.c:23-34 | a coordinate outside the image gets the nearest pixel inside |
| `Raster.SampleMirror` | imaging/convolve.c:23-34 | edge clamping commutes with reflection, at every coordinate inside and outside |
| `Raster.SampleTranspose` | imaging/convolve.c:23-34 | edge clamping commutes with transposition |
| `ConvolveLaws.ConvTranspose` | imaging/convolve.c:36-52 | every filter commutes with transposition of image and kernel, for images of every size |
| `ConvolveLaws.ConvMirror` | imaging/convolve.c:36-52 | every filter commutes with horizontal flip of image and kernel |
| `ConvolveLaws.ConvFlip` | imaging/convolve.c:36-52 | every filter commutes with vertical flip of image and kernel |
| `ConvolveLaws.IdentityReturnsInput` | imaging/convolve.c:6-8 | the identity kernel returns the input |
| `ConvolveLaws.BlurStaysInRange` | imaging/convolve.c:9-11 | a blurred pixel lies between the least and the greatest sample of its clamped neighbourhood |
| `ConvolveLaws.ConstantFixed` | imaging/convolve.c:6-14 | a kernel whose weights add up to its divisor leaves images of one level alone |
| `ConvolveLaws.NamedKernels` | imaging/convolve.c:6-14 | the named kernels are such kernels, with their documented divisors |
| `ConvolveLaws.NamedSums` | imaging/convolve.c:6-14 | what each named kernel adds up at a pixel |
| `ConvolveLaws.QuotientExact` | imaging/convolve.c:47 | the division is the one that rounds toward zero, for every sign |
| `ConvolveLaws.ConvPixel` | imaging/convolve.c:36-52 | every output pixel: the nine weighted clamped samples, divided toward zero, shifted and cut to a byte |
| `ConvolveLaws.SobelPixel` | imaging/convolve.c:54-75 | every edge pixel: the length of the gradient rounded to the nearest integer, 255 exactly from 254.5 on |
| `ConvolveLaws.SobelTranspose` | imaging/convolve.c:16-75 | the edge filter commutes with transposition |
| `ConvolveLaws.SobelMirror` | imaging/convolve.c:16-75 | it commutes with horizontal flip |
| `ConvolveLaws.SobelFlip` | imaging/convolve.c:16-75 | it commutes with vertical flip |
| `ConvolveLaws.SobelNegative` | imaging/convolve.c:16-75 | it is the same on the negative image |
| `Bmp.AllocatableExact` | imaging/image.c:8-18 | the sizes an image can have |
| `Bmp.NoWrap` | imaging/bmp.c:39-42 | within the pixel cap the 32-bit stride, pixel and file sizes do not wrap |
| `Bmp.StrideExact` | imaging/bmp.c:40 | rows are padded to the least multiple of four that holds them |
| `Bmp.HeaderFields` | imaging/bmp.c:44-59 | every field of the two headers at its offset |
| `Bmp.PaletteByte` | imaging/bmp.c:60-64 | palette entry i is the gray level i |
| `Bmp.PixelByte` | imaging/bmp.c:74-84 | pixel (x, y) is the byte at 1078 + (h - 1 - y) * stride + x, and what pads a row is zero |
| `Bmp.SizeExact` | imaging/bmp.c:34-89 | the file has as many bytes as its header says |
| `Bmp.RoundTrip` | imaging/bmp.c:34-127 | reading what was written gives the image back, for every image within the cap |
| `Bmp.ReadExact` | imaging/bmp.c:91-127 | exactly which files are read |
| `Bmp.ReadPixel` | imaging/bmp.c:102-124 | pixel (x, y) read from any file is the byte at offset + (h - 1 - y) * stride + x, offset and size as its header says |
| `Bmp.Rewritten` | imaging/bmp.c:34-127 | what is read can be written, and reading that gives the same image |
| `BmpFiles.BuildHeader` | imaging/bmp.c:44-64 | the header buffer filled field by field, with the gray palette, is the specified header |
| `BmpFiles.Write` | imaging/bmp.c:34-89 | bad arguments leave the file alone; otherwise the file gets as many of the right bytes as there is room for, and success means all of them |
| `BmpFiles.Allocate` | imaging/image.c:8-18 | a zeroed buffer exactly for allowed sizes with memory to spare |
| `BmpFiles.ReadFile` | imaging/bmp.c:91-127 | the reading loop is the specified reader, with its failure cases |
| `Uplink.BackoffExact` | firmware/pulselink_fw.ino:196-206 | after k waits the backoff is 500 ms doubled min(k, 5) times, never above 16 s |
| `Uplink.EveryRun` | firmware/pulselink_fw.ino:94-252 | over every run of both tasks: that backoff, counted from the last good handshake; readings sent in the order taken, none twice and none both sent and lost or waiting; the connection flag up exactly when no wait followed the last handshake; every reading accounted for |
| `Uplink.Balanced` | firmware/pulselink_fw.ino:94-252 | at the loop boundaries produced is sent plus queued plus lost in failed sends, and the sequence number is produced plus dropped, modulo 2^32 |
| `Uplink.WireNumbersRise` | firmware/pulselink_fw.ino:103-116 | until the sequence number wraps, the numbers sent strictly increase |
| `Uplink.Firmware.TakeSample` | firmware/pulselink_fw.ino:98-119 | one turn of the sampling task is its two steps: the next number is queued and counted, or dropped and counted when sixteen wait |
| `Uplink.Firmware.BackoffWait` | firmware/pulselink_fw.ino:196-206 | the wait lasts the backoff rounded up to half seconds, with a watchdog feed before each, and then doubles it |
| `Uplink.Firmware.Connect` | firmware/pulselink_fw.ino:219-234 | the connection part of the loop: connected exactly when Wi-Fi is up and the link holds or a new one is made and greeted; what that does to link, backoff and flag |
| `Uplink.Firmware.SendNext` | firmware/pulselink_fw.ino:236-249 | the sending part of the loop: a completed write puts the oldest reading on the wire and counts it, a failed one loses it, drops the link and waits; an empty queue changes nothing |
| `Uplink.Firmware.Turn` | firmware/pulselink_fw.ino:216-251 | one turn of the uplink's loop is a run of its steps, and what it sends, loses and changes in every case |
| `Listener.EveryRun` | server/tcp_listener.c:101-133 | in every interleaving slots are conserved, workers never exceed slots, open connections never exceed slots plus one, and a connection is turned away exactly when workers hold every slot |
| `Listener.Served` | server/tcp_listener.c:101-133 | a connection that finds a slot costs one and gets a worker |
| `Listener.TurnedAway` | server/tcp_listener.c:101-133 | a connection that finds no slot, or whose worker cannot start, leaves all as before |
| `Listener.Left` | server/client_handler.c:249-253 | a worker that ends closes its connection and gives its slot back |
| `Listener.WorkerKeepsInv` | server/client_handler.c:249-253 | the worker's close and post keep this |
| `Listener.Admission.Admit` | server/tcp_listener.c:101-133 | on every failure path the slot is given back; a served connection costs exactly one |

## Left out

- Socket setup, `poll`, signals, the shutdown pipe and argument parsing (`server/main.c`, most of `server/tcp_listener.c`): plumbing without an invariant of its own.
- The shutdown drain: it is bounded by time, and a worker counts itself active only once it runs.
- Resynchronisation after a magic, version or size error: the code does not consume the payload, and nothing is claimed about what follows.
- Timeouts inside a packet: `read_n` drops what it has read, so the framing theorems are about streams without them; `NetUtil.ReadN` and `WorkerRuns.EveryRun` cover them.
- `dt_sweep_offline`, `dt_dump` and the heartbeat listener: no concurrent guarantee is promised for the first, the others add only easy members.
- ClientWorker.Client.Handle: does not model `dt_get_or_create` returning NULL to the worker, because a SENSOR packet would then dereference it (`server/device_table.c:88`); the table model has that case.
- Consistency between the last sequence, temperature and humidity of a device: they are separate atomic stores.
- ClientWorker.Client.TakeFrame: does not model the filter and the files written for completed frames (`server/client_handler.c:214-233`), which no state of the worker depends on; both are modelled on their own.
- ClientWorker.Client.Serve: stops where the loop does; the cleanup after it (`server/client_handler.c:249-256`) is `FrameAssembler.Assembler.Reset` and, for connection and slot, the `Close` and `Post` steps of `Listener`.
- Wait queues, `poll` and the statistics query of `kmod/telemetry_drv.c`: a sleeping reader is modelled by what it finds when it wakes.
- Results of sends other than HELLO_ACK: the source ignores them too.
- Convolve.Conv3x3: sums are unbounded integers, so overflow of a C `int` with huge kernels is not modelled; the named kernels stay far below it.
- Convolve.Conv3x3: does not model filtering in place: `imaging/convolve.h:15-16` demands distinct buffers, and the code would read pixels it has already replaced.
- Convolve.SobelFilter: does not model filtering in place, for the same reason; every caller passes a separate output.
- Convolve.SobelFilter: the rounded floating-point square root is modelled as the nearest integer to the exact root, which is what it is on the sums that occur (at most 2080800).
- Uplink.WireNumbersRise: stated until the 32-bit sequence number wraps; `Uplink.EveryRun` states the order without that bound on unwrapped numbers.
- RingLog.Quiescent: stated for fewer than 2^64 writes, since the overwritten counter stops being the excess over 1024 when the written counter wraps; `RingLog.EveryInterleaving` has no bound.
- Wi-Fi, display, LED, sensor driver, watchdog hardware and the conversion of floating-point samples in the firmware.
- `server/sink_chardev.c`, the command-line tools, the test pattern, logging, and the firmware's copies of modelled code.
