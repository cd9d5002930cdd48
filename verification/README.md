# LoRa mesh gateway bridge, modelled in Dafny

The system has two halves.

The firmware (`src/main.cpp`) runs on a LoRaMesher node.
- A **leaf** sends a counter packet every iteration of `loop()` to its closest gateway, or broadcasts it when no gateway is known.
- A **gateway** reads 7-byte frames from its serial port and sends the first four bytes as a raw packet. The destination is built from bytes 4 and 5; byte 6 is ignored.
- Both kinds of node run a receive task. It drains the mesh layer's received-packet queue and prints each envelope and its packets on the serial console.

The host bridge (`src/try.py`) sits between the gateway's console and a LoRaWAN node.
- It parses `DATA:<values> <dst hex>` lines and cuts the values into chunks of at most 49.
- Each chunk gets the destination appended as two bytes, high first, and goes on a FIFO queue.
- It forwards one queued message per iteration, followed by a newline.
- It turns `RETURN:<values>` lines from the LoRaWAN side into bytes written back to the gateway.

The model has seven modules:
- `Common` holds bytes and fixed-width integers.
- `Text` holds the digit parsing and formatting the two programs use, plus Python's `split()` and `rsplit(' ', 1)`.
- `Packet` holds the `dataPacket` record, the gateway's frame decode, the destination choice and the console formatters.
- `Firmware` holds the `Node` class, with the globals `loop()` mutates, and the `Receiver` class, with the drain loop.
- `Bridge` holds the bridge's pure parsing, chunking and `RETURN:` encoding.
- `BridgeLoop` holds the `SerialBridge` class, with `message_queue` and the two serial streams.
- `Interop` holds lemmas that connect the two programs. A `RETURN:` line of six byte values is exactly the frame the gateway decodes. The firmware's counter line is a `DATA:` line the bridge accepts, and it is queued only while the counter is below 256.

The mesh layer is abstract state in this model:
- The routing table's answer is a parameter (`Option<u16>`).
- `createPacketAndSend` appends to a log of sends.
- The received queue is a `seq` of envelopes, with logs of what was taken out and what was released.
- Console output is a sequence of structured lines. `Packet.Render` gives each line's exact text.

## Model

| member | source | states |
|---|---|---|
| Common.ToBytes | src/try.py:47 | `bytes(list)` of values all in 0..255 keeps the length and every value |
| Text.ParseInt | src/try.py:37-42 | `int(tok)` / `int(tok, 16)` succeeds exactly on an optional `-` followed by at least one digit of the base; a negative result comes from a leading `-` |
| Text.FormatNat | src/main.cpp:44 | `%x`/`%X` output is non-empty, all digits of the base, without sign or whitespace |
| Text.FormatInt | src/main.cpp:44 | `%d` output is non-empty and contains no whitespace |
| Text.FormatNatValue | src/main.cpp:44 | the digits printed for `n` have value `n` |
| Text.ParseFormatNat | src/try.py:37 | `int(s, 16)` reads back the `%x` of any natural number, and `int(s)` reads back its decimal form |
| Text.ParseFormatInt | src/try.py:42 | `int(s)` reads back the `%d` of any integer, negative ones included |
| Text.TokenEnd | src/try.py:42 | a token ends at the first whitespace character or at the end of the text |
| Text.Split | src/try.py:42 | `str.split()` yields non-empty tokens without whitespace (which tokens: `Text.JoinSplit`) |
| Text.SplitJoin | src/try.py:42 | splitting the space-joined tokens gives the same tokens back |
| Text.JoinSplit | src/try.py:42 | for any text, the tokens `split()` returns, joined by single spaces, are the text with leading and trailing whitespace dropped and each inner whitespace run (spaces, tabs, any mix) collapsed to one space: every word, in order, and nothing else |
| Text.LastIndexOf | src/try.py:36 | finds the last occurrence: none iff absent; otherwise the character is there and not after it |
| Text.RSplitOnce | src/try.py:36 | `rsplit(' ', 1)` into two parts fails iff there is no space; otherwise head + space + tail is the text and the tail has no space |
| Text.RSplitOnceJoin | src/try.py:36 | a head, a space and a space-free tail split back into that head and tail |
| Packet.DecodeFrame | src/main.cpp:181-193 | a 7-byte frame gives one raw packet (`type = 1`) of bytes 0..3 to `dst` with `dst / 256 = byte 4` and `dst % 256 = byte 5` |
| Packet.DecodeFrameIgnoresTrailer | src/main.cpp:181-190 | frames that agree on bytes 0..5 decode alike: byte 6 has no effect |
| Packet.DecodeFrameInjective | src/main.cpp:190 | equal decodes come from frames with equal bytes 0..5 |
| Packet.ChooseDestination | src/main.cpp:203-208 | the closest gateway's address when there is one, otherwise `BROADCAST_ADDR` |
| Packet.AsSigned32 | src/main.cpp:44 | `%d` of a `uint32_t` shows a value in -2^31..2^31-1 congruent to it modulo 2^32, equal to it iff it is below 2^31 |
| Packet.Render | src/main.cpp:44-210 | the text of each console line: `DATA:%d %x` (line 44), a byte through `println` (50), `Packet arrived from %X with size %d` (61), the two drain-loop lines (86-87), the two leaf lines (198, 209); exactly the counter line starts with `DATA:`, and a byte line reads back as that byte |
| Packet.PacketLinesShape | src/main.cpp:41-53 | a counter packet prints one line starting `DATA:`; any other packet prints four lines that read back as data bytes 0..3 in order |
| Packet.PrintPacket | src/main.cpp:41-53 | the index loop prints exactly the lines of the packet |
| Packet.PayloadLinesAppend | src/main.cpp:68-71 | printing a payload in two parts prints the parts' lines one after the other |
| Packet.RawCount | src/main.cpp:47-52 | the number of non-counter packets is at most the payload length |
| Packet.PayloadLinesCount | src/main.cpp:64-71 | a payload prints one line per counter packet and four per raw packet, so an empty payload prints nothing |
| Packet.PrintDataPacket | src/main.cpp:60-72 | the header line, then `printPacket` for each payload packet in index order with the envelope's `src` |
| Firmware.CounterAfterStep | src/main.cpp:200 | one more `dataCounter++` wraps from 2^32-1 to 0 |
| Firmware.LeafSendsCounters | src/main.cpp:197-213 | consecutive leaf iterations send one packet each, counter start+i modulo 2^32, to the destination chosen at that iteration |
| Firmware.LeafCountersStep | src/main.cpp:200-201 | each counter sent is the previous one plus one, modulo 2^32 |
| Firmware.Node.constructor | src/main.cpp:12-23 | counter 0, both packets zeroed, nothing sent or printed |
| Firmware.Node.LeafStep | src/main.cpp:197-213 | prints the counter and the address, sends a type-0 packet of the pre-increment counter with payload count 1, increments the counter modulo 2^32 |
| Firmware.Node.RunLeaf | src/main.cpp:175-218 | n leaf iterations leave the counter n higher modulo 2^32 and send and print what `LeafSends` and `LeafLog` list; after at least one iteration `helloPacket` is type 0 holding the last counter sent, after none it is unchanged |
| Firmware.Node.GatewayStep | src/main.cpp:178-195 | with a frame waiting, `returnPacket` becomes type 1 with bytes 0..3 and its decode is sent; without one nothing changes |
| Firmware.DrainedStep | src/main.cpp:85-97 | one drain iteration keeps the invariant: drained packets are the queue's front, each taken and released once, and the console plus the rest's lines is the whole drain's lines |
| Firmware.DrainedEnds | src/main.cpp:85-97 | the invariant holds at the start and, with an empty queue, gives the whole drain |
| Firmware.DrainLinesCount | src/main.cpp:85-97 | draining n envelopes prints 3 lines per envelope, one per counter packet and four per raw packet |
| Firmware.Receiver.constructor | src/main.cpp:85 | a queue of pending envelopes, nothing taken, released or printed |
| Firmware.Receiver.QueueSize | src/main.cpp:85 | `getReceivedQueueSize()` is 0 iff the queue is empty |
| Firmware.Receiver.GetNextAppPacket | src/main.cpp:90 | takes the front envelope and logs it as taken |
| Firmware.Receiver.DeletePacket | src/main.cpp:96 | logs the envelope as released |
| Firmware.Receiver.DrainOne | src/main.cpp:86-96 | one loop iteration: prints the two queue lines and the envelope, then takes and releases the front envelope |
| Firmware.Receiver.ProcessReceivedPackets | src/main.cpp:78-99 | leaves the queue empty; every envelope is taken and released exactly once, in queue order, and printed in that order |
| Bridge.ParseInts | src/try.py:42 | `[int(v) for v in tokens]` succeeds iff every token parses, and gives each token's value in order |
| Bridge.ParseDataContent | src/try.py:34-42 | fails with no separator iff the text has no space; on success the destination is the hex after the last space and the payload is the decimal tokens before it |
| Bridge.ParseDataContentJoin | src/try.py:34-42 | values, a space and a hex destination parse back to those values and that destination |
| Bridge.SplitDestination | src/try.py:38-39 | `a*256 + b == dst` with `0 <= b < 256`, and `a` is a byte iff `dst` is in 0..65535 |
| Bridge.Slice | src/try.py:43 | `d[lo:hi]` is `d[lo]`, `d[lo+1]`, ... up to the clamped end, and empty when `lo` is past the end |
| Bridge.Chunks | src/try.py:43 | ceil(n/49) chunks, each of 1 to 49 values |
| Bridge.ChunksFront | src/try.py:43 | a payload longer than 49 is its first 49 values, then the chunks of the rest |
| Bridge.ChunksFlatten | src/try.py:43 | the chunks joined in order are the payload, and an empty payload gives no chunks |
| Bridge.QueuedCount | src/try.py:45-52 | every chunk before the stop fits in bytes with the destination appended; the chunk it stops at does not |
| Bridge.QueuedShape | src/try.py:45-48 | every queued message has 3 to 51 bytes and ends with the destination, high byte first; anything queued implies a destination below 65536 |
| Bridge.QueuedNothingForWideDestination | src/try.py:38-48 | a destination outside 0..65535 queues nothing |
| Bridge.QueuedAll | src/try.py:42-48 | with byte values and a 16-bit destination, one message per chunk is queued and their payloads joined are the payload |
| Bridge.EncodeReturn | src/try.py:69-71 | on success one byte per token followed by a newline, each the token's value; on failure some token is not a byte |
| Bridge.ParseFormatValues | src/try.py:70 | parsing space-joined decimal values gives the values back |
| Bridge.ReturnBytesFormat | src/try.py:66-72 | `RETURN:` followed by byte values is written back as those bytes and a newline |
| BridgeLoop.FramedAppend | src/try.py:55-57 | the newline-framed output of two runs of messages is the two outputs in order |
| BridgeLoop.AppendedStep | src/try.py:45-48 | appending the next expected message keeps the queue and its log equal to the start plus the prefix appended so far |
| BridgeLoop.AppendedAll | src/try.py:45-48 | once all are appended, queue and log grew by exactly the expected messages |
| BridgeLoop.SerialBridge.constructor | src/try.py:17 | an empty queue and nothing written either way |
| BridgeLoop.SerialBridge.HandleMesherLine | src/try.py:31-52 | a `DATA:` line that parses appends its chunks until `bytes()` first raises; any other line leaves the queue unchanged; FIFO invariant kept |
| BridgeLoop.SerialBridge.QueueChunks | src/try.py:45-52 | appends exactly the messages `QueuedChunks` lists, in chunk order, and nothing else changes |
| BridgeLoop.SerialBridge.ForwardStep | src/try.py:55-57 | an empty queue writes nothing; otherwise the front message is removed and written followed by one newline |
| BridgeLoop.SerialBridge.HandleLmicLine | src/try.py:66-74 | a `RETURN:` line of byte values writes those bytes and a newline back; anything else writes nothing |
| BridgeLoop.SerialBridge.Iterate | src/try.py:25-74 | one pass queues the mesh line's messages, forwards the front of the queue if any, and writes back what the LoRaWAN line returns |
| Interop.ReturnLineIsGatewayFrame | src/try.py:66-72 | six byte values on a `RETURN:` line become a 7-byte frame that the gateway decodes to a raw send of the first four to `v4*256 + v5` |
| Interop.SplitUndoesDecode | src/try.py:38-39 | the bridge's split of a decoded destination gives back frame bytes 4 and 5 |
| Interop.DecodeUndoesSplit | src/main.cpp:190 | the gateway's decode of the bridge's two destination bytes gives back any 16-bit destination |
| Interop.CounterLineParses | src/main.cpp:44 | the firmware's counter line starts `DATA:` and parses to the counter as `%d` shows it, with the source address as destination |
| Interop.CounterLineQueued | src/try.py:42-52 | the counter line queues one 3-byte message (counter, source high, source low) when the counter is below 256, and nothing otherwise |
| Interop.RawLinesQueueNothing | src/main.cpp:47-52 | none of the four lines printed for a raw packet makes the bridge queue anything |

## Left out

- Serial and UART I/O is not modelled. This covers `Serial.available`, `readBytes`, `flush`, `printf` and `println`, and the pyserial ports, `in_waiting`, `readline`, `write` and `close`. Console output is a sequence of structured lines (`Packet.Line`); input lines and frames are parameters.
- Firmware.Node.GatewayStep: requires a full 7-byte frame; a short read by `readBytes` that leaves stale buffer bytes is not modelled.
- Line terminators and `decode(...).strip()` are not modelled: input lines arrive already stripped, and printed lines carry no `\n`.
- FreeRTOS task creation, `ulTaskNotifyTake` and `vTaskDelay` are not modelled. The drain runs single-threaded: no packet arrives while the queue is drained, and the outer `for (;;)` is one call per wake.
- Firmware.Node.RunLeaf: models finitely many iterations of the endless `for (;;)`, one per routing-table answer supplied.
- LoRaMesher internals are not modelled: `begin`, `start`, `addGatewayRole`, routing, and the packet memory behind `getNextAppPacket` and `deletePacket`. The closest gateway is an `Option<u16>` parameter, and `BROADCAST_ADDR` is the library's 0xFFFF. A send is a logged `(dst, packet, count)`.
- Board and SPI configuration, `led_Flash`, `time.sleep` throttling, and the bridge's own coloured console prints are left out; they have no effect on the data path.
- The `dataPacket` union's memory reinterpretation (reading `counter` through `data[4]` or the reverse) depends on the platform's byte order, so the two views are separate variants. Any `type` other than 0 is printed as raw bytes, and only types 0 and 1 are ever created.
- The header line's `payloadSize` is taken as given in the envelope; its relation to the payload length is the mesh layer's.
- Text.ParseInt: Python `int()` also accepts a leading `+`, `_` digit separators, a `0x` prefix with base 16, and surrounding whitespace. These are parse errors in the model. None of them occurs in the tokens `split()` produces from the firmware's own lines.
- Text.IsSpace: only ASCII whitespace (the characters `str.split()` treats as whitespace below 128) separates tokens; non-ASCII whitespace is not modelled.
- The bridge's top-level `except serial.SerialException` and `KeyboardInterrupt` handlers and the port closing are left out; they concern the ports only.
