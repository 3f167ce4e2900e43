# Serial bridge: a verified model of the protocol engines

The program bridges serial ports to the network: it carries raw and telnet clients, translates
Modbus/TCP to Modbus RTU, publishes polled registers as a Sparkplug B edge node, traces traffic
to rotating files, and imports the configuration of another bridge. This project models the
parts of it that work on bytes, queues and text, and proves what they promise on every input,
on every chunking and in every interleaving.

How the model is laid out:

- An operation that loops, fills a buffer or changes an object is a `method` or a `class`, proved
  equal to a function on values; the laws are lemmas about those functions. Such a pair shows in
  the table as the method (it does what the function says) and the lemmas (what that means).
- Concurrent parts (the gateway, the clients of a device, the two threads of the tracer, two
  telnet sessions facing each other) are step systems. One step is the stretch of code between
  two awaits, or one locked section; the network, the device and the scheduler choose the steps.
- A raised `ValueError` is an `Err` result; its text is not modelled. A `str` of the Sparkplug
  codec is its UTF-8 bytes, a float the 4 or 8 bytes that carry it, and a string of the importer
  a sequence of Unicode characters.
- History variables (bytes received, chunks offered, bus log, commands sent) are state that the
  program does not keep. They only record, and no step reads them.

| file | component |
|---|---|
| `Wire.dfy`, `WireGrammar.dfy` | protobuf wire format, and exactly what is accepted |
| `Sparkplug.dfy`, `SparkplugTheorems.dfy`, `SparkplugDomain.dfy`, `SparkplugDecode.dfy`, `Utf8.dfy` | payload codec, its laws, what it encodes and what it decodes |
| `Node.dfy`, `NodeWire.dfy`, `Command.dfy` | edge node, its messages as bytes; a command's way from the host to a register |
| `Crc.dfy`, `Polynomial.dfy`, `BitsOfByte.dfy`, `Mbap.dfy`, `Pdu.dfy`, `Server.dfy`, `Gateway.dfy` | Modbus framing, PDUs, what a server reads in them, and the shared bus |
| `Telnet.dfy`, `TelnetExact.dfy` | telnet sessions, alone, in pairs, and command by command |
| `Clients.dfy`, `Closeon.dfy`, `Tracer.dfy` | data path of the bridge |
| `FlowEnd.dfy`, `Flow.dfy`, `FlowTheorems.dfy`, `Assemble.dfy` | configuration import |
| `Quote.dfy` | Windows service command line |

## Model

| member | source | states |
|---|---|---|
| `Wire.EncodeVarint` | app/engine/sparkplug.py:116-125 | the loop produces the base-128 varint of every number below 2^64 and refuses all others |
| `Wire.ReadVarintAt` | app/engine/sparkplug.py:128-140 | at any position of any bytes: the value cut to 64 bits and the position behind it, or an error for a cut-off varint or one of more than ten bytes |
| `Wire.VarintRoundTrip` | app/engine/sparkplug.py:116-140 | reading undoes writing, whatever follows |
| `WireGrammar.ReadVarintExact` | app/engine/sparkplug.py:128-140 | a varint is read exactly when one of one to ten bytes stands there, all but the last with the high bit set, and as its seven-bit digits cut to 64 bits |
| `WireGrammar.VarintShortest` | app/engine/sparkplug.py:116-125 | a number is written with its own digits, in the fewest bytes |
| `Wire.KeyRoundTrip` | app/engine/sparkplug.py:143-161 | field keys are read back with their number and wire type |
| `Wire.SkipGroupAt` | app/engine/sparkplug.py:181-194 | the loop with its stack of open groups ends exactly where the group does, or fails; it stays in bounds and terminates on arbitrary input |
| `Wire.SkipItems` | app/engine/sparkplug.py:181-194 | a balanced tree of fields and groups of any depth inside an open group is passed over as a whole |
| `Wire.ReadTurnAt` | app/engine/sparkplug.py:164-211 | one turn of the field walk on arbitrary bytes: the field or the skipped group and the position behind it |
| `Wire.WalkFields` | app/engine/sparkplug.py:197-211 | the whole walk over arbitrary bytes yields the list of fields, or the error |
| `Wire.FieldsAppend` | app/engine/sparkplug.py:197-211 | the walk is a homomorphism: for well-formed a, fields of a+b are the fields of a followed by those of b, errors included |
| `Wire.FieldsOfItems` | app/engine/sparkplug.py:181-211 | the bytes of any tree of fields and nested groups are read as exactly its top-level fields |
| `WireGrammar.AcceptedExactly` | app/engine/sparkplug.py:155-211 | the walk accepts a byte string if and only if it is a message of the wire format: keys with a legal number, values that are all there, groups that are balanced, at any depth and with varints of any form; and it reports exactly the fields at its top |
| `Sparkplug.EncodeMetric` | app/engine/sparkplug.py:287-372 | the buffer built field by field is the serialised field list of the metric, or an error for what cannot be carried |
| `Sparkplug.EncodePayload` | app/engine/sparkplug.py:375-395 | the same for a payload with any number of metrics |
| `SparkplugDomain.MetricEncodable` | app/engine/sparkplug.py:214-372 | a metric can be encoded if and only if its name is text, alias and timestamp fit 64 bits, its datatype is a supported one, and it is null or its value fits the datatype: an integer in range, a Boolean or 0 or 1, 4 or 8 float bytes, text, bytes |
| `SparkplugDomain.PayloadEncodable` | app/engine/sparkplug.py:375-395 | a payload can be encoded if and only if timestamp, sequence (0 to 255), uuid and body are in range and every metric is |
| `SparkplugDomain.MetricLayout` | app/engine/sparkplug.py:350-372 | the field numbers, wire types and contents of every part of a metric, in order |
| `SparkplugDomain.PayloadLayout` | app/engine/sparkplug.py:375-395 | the same for a payload, one field 2 per metric |
| `Utf8.ValidIffEncoded` | app/engine/sparkplug.py:220-239 | the byte strings taken for text are exactly the UTF-8 encodings of sequences of Unicode scalar values |
| `Sparkplug.ParseMetric` | app/engine/sparkplug.py:335-433 | the decoding loop computes the fold over the field walk, for arbitrary bytes |
| `Sparkplug.ParsePayload` | app/engine/sparkplug.py:436-458 | the same for payloads |
| `SparkplugDecode.MetricDecoded` | app/engine/sparkplug.py:398-433 | what any fields decode to: of each part the last occurrence counts, the value of the last value field is read by the datatype, a name or text that is not UTF-8 is an error |
| `SparkplugDecode.PayloadDecoded` | app/engine/sparkplug.py:436-458 | the same for a payload, with the metrics in order |
| `SparkplugTheorems.IntRoundTrip` | app/engine/sparkplug.py:282-332 | two's complement of the field width is undone for every integer datatype over its full range |
| `SparkplugTheorems.AcceptedForms` | app/engine/sparkplug.py:317-332 | a wire integer is accepted as i if and only if it is the sign-extended pattern of i or, for a signed type, the pattern of the type's own width |
| `SparkplugDomain.IntDecoded` | app/engine/sparkplug.py:317-344 | for each datatype and either integer field, exactly which raw numbers are read as which integer |
| `SparkplugDomain.OtherDecoded` | app/engine/sparkplug.py:335-344 | exactly which fields the other datatypes are taken from; without a known datatype the plain value stays |
| `SparkplugTheorems.MetricRoundTrip` | app/engine/sparkplug.py:350-433 | every metric that can be encoded is decoded to itself, with or without its datatype on the wire |
| `SparkplugTheorems.PayloadRoundTrip` | app/engine/sparkplug.py:375-458 | every payload that can be encoded is decoded to itself; only null metrics lose their value |
| `SparkplugTheorems.MetricTransparent` | app/engine/sparkplug.py:197-433 | well-formed unmodelled bytes between two fields of a metric change neither the result nor the error |
| `SparkplugTheorems.PayloadTransparent` | app/engine/sparkplug.py:197-458 | the same between two fields of a payload |
| `SparkplugTheorems.ItemsTransparent` | app/engine/sparkplug.py:181-458 | in particular any tree of unmodelled fields and balanced groups |
| `SparkplugTheorems.NestedTransparent` | app/engine/sparkplug.py:398-458 | and inside a metric that is itself inside a payload |
| `Node.SparkplugNode.constructor` | app/engine/sparkplug_node.py:42-56 | points are grouped into devices in order of first appearance, with nothing read yet |
| `Node.SparkplugNode.PublishBirth` | app/engine/sparkplug_node.py:94-109 | whatever was polled before, a host that replays the messages from this birth on agrees with the node on every configured point |
| `Node.SparkplugNode.PublishUpdate` | app/engine/sparkplug_node.py:111-120 | each polled value of a point that is new or differs, by any notion of equality, is held afterwards and everything else is unchanged; a host in agreement with the node stays so |
| `Node.SparkplugNode.PublishChanged` | app/engine/sparkplug_node.py:116-120 | the loop sends one message per device that has a changed point |
| `Node.UpdateReportsChanges` | app/engine/sparkplug_node.py:111-120 | an update only adds non-empty data messages, and every point in them was polled and is new or not equal to the value before |
| `Node.UpdateStores` | app/engine/sparkplug_node.py:111-115 | after an update a point holds the polled value if it was never read or differed, and its old value otherwise |
| `Node.UpdateSends` | app/engine/sparkplug_node.py:116-120 | the messages of an update: for each device with new values one message with all of them and no others, numbered on |
| `Node.BirthSends` | app/engine/sparkplug_node.py:100-109 | the messages of a birth: an NBIRTH with number 0 and one message per device with all its points |
| `Node.RunStores` | app/engine/sparkplug_node.py:94-120 | after any run each point holds the last polled value that was new when it was polled |
| `Node.DevicesCover` | app/engine/sparkplug_node.py:47-50 | every configured point is reported by the device of its unit |
| `Node.DevicesExact` | app/engine/sparkplug_node.py:47-50 | there is one device for each unit and it holds exactly the points of its unit, in order |
| `Node.BirthSyncs` | app/engine/sparkplug_node.py:94-109 | after a birth a host that replays the messages holds the node's value of every point, null where none was read, and message k carries k mod 256 (with app/engine/sparkplug.py:509-511) |
| `Node.UpdateSyncs` | app/engine/sparkplug_node.py:111-120 | an update keeps host and node in agreement and the numbering going (with app/engine/sparkplug.py:509-511) |
| `Node.AlwaysInSync` | app/engine/sparkplug_node.py:94-120 | so they agree after any run of births and updates |
| `NodeWire.Heard` | app/engine/sparkplug_node.py:85-98 | a message encoded at any time, with any time stamps, is decoded by the host to the same message, values as their datatype presents them |
| `NodeWire.HostHoldsValues` | app/engine/sparkplug_node.py:85-120 | after any run, a host that decodes the bytes published since the last birth and replays them holds the value of every point, null where none was read |
| `NodeWire.HostHoldsLastPolled` | app/engine/sparkplug_node.py:85-120 | so the host holds the last polled value of each point that was new when it was polled |
| `NodeWire.BirthSent` | app/engine/sparkplug_node.py:100-105 | every NBIRTH can be encoded, and the host takes it for one |
| `Command.CommandWrites` | app/engine/sparkplug_node.py:143-165 | for every integer a host can send in any datatype: with the datatype on the wire the words of that number, or none if it does not fit the point; without it the words of the unsigned pattern, read as signed 32-bit for a signed point (with app/engine/sparkplug.py:282-344, app/engine/modbus.py:283-318) |
| `Command.UntypedAgrees` | app/engine/sparkplug_node.py:159-165 | leaving the datatype off changes nothing if and only if the number is none of three kinds: negative in the 64-bit field, too large for a signed point but in its range after subtracting 2^32, negative for an unsigned 32-bit point |
| `Command.LargeNumberWrapped` | app/engine/sparkplug_node.py:159-165 | one such number: 2^32 + 5 without datatype is written to a signed 32-bit point as 5 |
| `Command.CommandReadBack` | app/engine/sparkplug_node.py:159-165 | a number sent in the point's own type without datatype, written and read back from the registers, is that number (with app/engine/modbus.py:134-145, 283-318) |
| `Crc.ComputeCrc` | app/engine/modbus.py:26-36 | the nested loops compute the shift-register CRC of the bytes |
| `Polynomial.CrcIsRemainder` | app/engine/modbus.py:26-36 | the CRC of any message is the remainder of its bits times x^16, the first 16 inverted, divided by x^16 + x^15 + x^2 + 1 in schoolbook division |
| `Crc.UnwrapIffZeroCrc` | app/engine/modbus.py:26-54 | a frame of four or more bytes is accepted if and only if the CRC over the whole frame is zero |
| `Crc.WrapUnwrap` | app/engine/modbus.py:39-54 | a wrapped PDU is unwrapped to itself, except the empty one, which is too short |
| `Crc.UnwrapWrap` | app/engine/modbus.py:39-54 | whatever is accepted is exactly what wrapping its unit and PDU gives |
| `Crc.BurstDetected` | app/engine/modbus.py:26-54 | a change confined to two neighbouring bytes, anywhere in an accepted frame of any length, is rejected |
| `Mbap.PopTcpAdu` | app/engine/modbus.py:64-86 | the frame at the head of the buffer is removed from it; in every other case the buffer is unchanged |
| `Mbap.DrainBuffer` | app/engine/modbus.py:64-86 | popping until no frame is left gives the frames of the stream, the error behind them and the rest (with app/engine/modbus_gateway.py:466-475) |
| `Mbap.ScanSplit` | app/engine/modbus.py:64-86 | scanning a stream in two parts is scanning it at once, whatever the cut |
| `Mbap.ChunkingIrrelevant` | app/engine/modbus.py:64-86 | every chunking gives the same frames, the same error and the same error position (with app/engine/modbus_gateway.py:448-475) |
| `Mbap.LeftoverBounded` | app/engine/modbus.py:64-86 | at most 259 bytes stay buffered |
| `Mbap.BuildTake` | app/engine/modbus.py:57-86 | a built frame with a PDU of 0 to 253 bytes is taken back, whatever follows |
| `Mbap.TakeExact` | app/engine/modbus.py:64-86 | a frame is taken if and only if its built form stands at the head of the buffer |
| `Mbap.BadExact` | app/engine/modbus.py:64-86 | the stream counts as broken if and only if a whole header stands there that no frame has |
| `Mbap.ScanEncoded` | app/engine/modbus.py:57-86 | so is any concatenation of built frames |
| `Mbap.FramesOnWire` | app/engine/modbus.py:64-86 | no stream is ever read as a frame with a PDU of more than 253 bytes |
| `Pdu.ResponseExact` | app/engine/modbus.py:107-122 | data are taken from a read reply exactly when it carries the function, their length and them |
| `Pdu.WriteMultipleCoilsPdu` | app/engine/modbus.py:167-240 | accepted exactly for 1 to 1968 coil states on a span in range; header as specified, coil i in bit i, padding bits zero, no more than 253 bytes |
| `Pdu.CoilsRoundTrip` | app/engine/modbus.py:202-240 | decoding packed coils gives the coils |
| `Pdu.PacksUnique` | app/engine/modbus.py:229-240 | coils determine every packed byte |
| `Pdu.AcknowledgesOnlyEcho` | app/engine/modbus.py:254-280 | a write counts as done if and only if the reply is the server's echo, never on an exception |
| `Pdu.PduSurvives` | app/engine/modbus.py:39-86 | a PDU of 1 to 253 bytes passes unchanged through both envelopes |
| `Pdu.BuiltSurvives` | app/engine/modbus.py:39-251 | so does every request that a bounded builder accepts |
| `Server.ServerReads` | app/engine/modbus.py:191-251 | a server that reads the bytes by the protocol takes each built request for that request: function, address, quantity and values |
| `Server.BuildersExact` | app/engine/modbus.py:158-251 | each builder accepts exactly the requests that the protocol allows |
| `Server.ExceptionExact` | app/engine/modbus.py:89-92 | an exception is the function with its high bit set, and the code |
| `Pdu.ValueRoundTrip` | app/engine/modbus.py:134-318 | every in-range integer written to registers is read back, for all four integer types |
| `Pdu.RegistersRoundTrip` | app/engine/modbus.py:134-318 | and every register content is the encoding of the number it decodes to |
| `Gateway.StepKeeps` | app/engine/modbus_gateway.py:261-478 | every step of every task keeps the invariant: lock holder, open transaction on the bus, requests, answers and bytes written agree |
| `Gateway.AlwaysInv` | app/engine/modbus_gateway.py:261-478 | so it holds after every run of any number of masters, polls and writes |
| `Gateway.OneOnTheBus` | app/engine/modbus_gateway.py:261-302 | in every run at most one task is in a transaction, and the bus log reads as whole transactions one after the other |
| `Gateway.SerialMeans` | app/engine/modbus_gateway.py:261-302 | in such a log nobody else appears between the start and the end of a transaction |
| `Gateway.RepliesExact` | app/engine/modbus_gateway.py:261-478 | each master's requests are the frames of the bytes it sent; each gets one reply, in order, with its transaction id and unit, but for one in progress or cut off; the reply is the PDU of the frame heard in the master's own transaction if that has a right CRC and the requested unit, and the 0x0B exception of the function in every other case |
| `Gateway.AnswersExact` | app/engine/modbus_gateway.py:261-302 | the same for the polls and writes of the gateway itself |
| `Gateway.ReadServed` | app/engine/modbus_gateway.py:448-478 | a master that is waited on is always read from; the next whole frame becomes its request, and it is closed only when there is none and the stream is broken |
| `Gateway.SubmitServed` | app/engine/modbus_gateway.py:304-363 | a poll or write gets in line with its request |
| `Gateway.TransactionCompletes` | app/engine/modbus_gateway.py:261-302 | a waiting request with the lock free can be carried through: the bus sees exactly that request, the answer is the proper one for whatever the device sends, and no other task changes |
| `Gateway.TransactionFails` | app/engine/modbus_gateway.py:261-302 | without a serial port, or when nothing comes in time, the answer is the exception |
| `Gateway.MasterReadsReplies` | app/engine/modbus_gateway.py:448-478 | in every run a master that parses its output stream gets exactly its replies if and only if no reply is longer than 253 bytes (with app/engine/modbus.py:57-86) |
| `Gateway.RepliesReadBack` | app/engine/modbus.py:57-86 | any stream of replies is read back as those replies if and only if each PDU fits |
| `Gateway.ShortFramesFit` | app/engine/modbus_gateway.py:261-302 | a device that keeps to 256-byte frames never makes a reply too long |
| `Gateway.LongReplyPassedOn` | app/engine/modbus_gateway.py:396-478 | for every non-empty PDU there is a run that passes it on; one of more than 253 bytes is not what the master reads |
| `Telnet.TelnetSession.constructor` | app/engine/protocols/telnet.py:30-50 | a new session has both options on and the twelve bytes of offers waiting |
| `Telnet.TelnetSession.NegotiateOption` | app/engine/protocols/telnet.py:97-121 | the four negotiation branches equal one function, which the next row pins to the rule of the protocol |
| `TelnetExact.NegotiationExact` | app/engine/protocols/telnet.py:67-121 | a whole negotiation command, in any state: the option becomes what was asked if it is supported and off otherwise; exactly one answer that says so is queued if that is a change, and none if it is not |
| `TelnetExact.StreamExact` | app/engine/protocols/telnet.py:67-121 | for any stream of data, negotiation, subnegotiation and other commands: exactly the data are delivered, and only the negotiation changes the session |
| `Telnet.TelnetSession.Receive` | app/engine/protocols/telnet.py:67-95 | the byte loop computes the run of the state machine and keeps the bounds on output and refusals |
| `Telnet.TelnetSession.TakeNetOut` | app/engine/protocols/telnet.py:52-58 | the output is handed over once and the rest of the state is untouched |
| `Telnet.ChunkingIrrelevant` | app/engine/protocols/telnet.py:67-95 | state and output do not depend on how the network stream is cut |
| `Telnet.FreshAlwaysSafe` | app/engine/protocols/telnet.py:30-121 | against any peer: the pending output is whole commands of at most 65538 bytes, and an unsupported option ever gets at most one WONT and one DONT, never WILL or DO |
| `TelnetExact.RefusalsExact` | app/engine/protocols/telnet.py:97-121 | with the bridge draining the output, an unsupported option has been refused exactly once on each side it was asked about, and never otherwise mentioned |
| `TelnetRuns.RepliesAlternate` | app/engine/protocols/telnet.py:48-121 | served in reads of at most 4096 bytes with the output taken after each, what a session says about a supported option strictly alternates and matches its table (with app/engine/bridge.py:403-412) |
| `TelnetRuns.LinkDeliversPrefix` | app/engine/protocols/telnet.py:30-121 | two fresh sessions back to back, any serial data and any delivery: each delivers a prefix of the other's data, all of it once the channel is empty, and neither sends a command beyond its opening offers |
| `Clients.ClientConn.FeedFromSerial` | app/engine/bridge.py:327-350 | a chunk for an open client is queued and the client stays open exactly when its queue is below its limit; otherwise it is marked as closing and nothing is queued |
| `Clients.FeedExact` | app/engine/bridge.py:327-350 | the stream grows by exactly that chunk, or the queue was at its limit; nothing else about the client changes |
| `Clients.ClosingHasCause` | app/engine/bridge.py:327-472 | in every run a client that was open is closing if and only if a chunk met a full queue, or it was kicked, asked to close, or ended |
| `Clients.ControlExact` | app/engine/bridge.py:406-412 | control bytes are queued behind what is there unless the queue is at its limit |
| `Clients.ClientConn.RequestGracefulClose` | app/engine/bridge.py:461-472 | the close mark goes behind what is queued and no chunk is lost or moved |
| `Clients.ClientConn.PumpSerialToNet` | app/engine/bridge.py:418-432 | one item is written, or at the mark everything behind it is flushed and the client ends; written plus queued data are the same before and after |
| `Clients.QueueWritten` | app/engine/bridge.py:418-432 | as many turns of the pump as items are queued write them all, in order |
| `Clients.GracefulFlushes` | app/engine/bridge.py:418-472 | a client asked to close is closed after all that was queued is written |
| `Clients.Broadcast` | app/engine/bridge.py:709-721 | the loop over the client objects gives each the chunk; what one does with it, an overflow included, leaves the others as they were |
| `Clients.CloseClients` | app/engine/bridge.py:725-731 | after a match each client is asked to close, each on its own |
| `Clients.AlwaysInOrder` | app/engine/bridge.py:327-723 | in every run what each client has written and queued is the first k chunks since its session began; k lags only once it is closing; the queue keeps its limit |
| `Clients.ClientsIndependent` | app/engine/bridge.py:327-723 | in the step system a client's state depends on the device and its own events only; `Clients.Broadcast` and `Clients.CloseClients` show this of the loops over the objects |
| `Clients.OpenIsComplete` | app/engine/bridge.py:327-350 | a client that is not closing has lost nothing |
| `Closeon.Matcher.CheckChunk` | app/engine/bridge.py:725-733 | with only the last bytes carried over, one chunk fires exactly when the pattern occurs in everything received since the last firing, and the carry-over stays sufficient |
| `Closeon.FiresExactly` | app/engine/bridge.py:496-733 | the matcher fires on a chunk exactly when the pattern occurs in all bytes since the last firing |
| `Closeon.FirstFiring` | app/engine/bridge.py:725-733 | the first firing is on the chunk that completes the first occurrence, for every chunking |
| `Tracer.AlwaysConserved` | app/engine/bridge.py:166-209 | in every interleaving of the two threads: bytes offered are on paper, reported missing, counted as dropped or waiting; the waiting bytes keep the limit; accepted chunks stay in order |
| `Tracer.WriteExact` | app/engine/bridge.py:166-174 | while the file is open each non-empty chunk is counted and then queued exactly when there is room, and added to the dropped bytes otherwise |
| `Tracer.ProcessExact` | app/engine/bridge.py:191-206 | a queued chunk becomes a line, after one that reports what was dropped before it |
| `Tracer.CatchesUp` | app/engine/bridge.py:182-206 | without a stop mark the writer can always reach a state where everything accepted is on paper, in order |
| `TraceFiles.TraceFile.RotateFiles` | app/engine/bridge.py:234-246 | after the renames the current file is empty, and what is retained is everything but the oldest file, or everything when no file replaces it |
| `TraceFiles.RotateRetains` | app/engine/bridge.py:234-246 | exactly what a rotation leaves, for any set of files |
| `TraceFiles.TraceFile.Append` | app/engine/bridge.py:211-232 | a batch written in runs equals the same lines written one by one; what is retained is a suffix of the old lines followed by the batch, and the whole batch is in it unless all older files are there and full |
| `TraceFiles.RetainedIsSuffix` | app/engine/bridge.py:211-246 | the retained files, oldest to newest, are a suffix of everything traced; all lines of the trace are in it unless all older files are there and have reached their size; the current file stays below its limit |
| `TraceFiles.NewestRetained` | app/engine/bridge.py:211-246 | the lower bound alone: nothing of a trace is lost before the files from 1 to keep all exist and hold at least the size limit |
| `TraceFiles.BatchingIrrelevant` | app/engine/bridge.py:211-246 | batching does not change the files |
| `FlowEnd.FlowEnd` | app/ser2net_import.py:153-177 | the loop with its jumps over escapes and comments finds where a character-by-character automaton first closes the collection, or -1 |
| `FlowEnd.EndOfPrint` | app/ser2net_import.py:153-177 | for every tree of lists and maps over double-quoted, single-quoted and plain scalars, with any blanks and comments between them, the end found in any longer text is the end of the print |
| `FlowEnd.PrefixUnfinished` | app/ser2net_import.py:153-177 | every proper prefix of the print gives -1 |
| `FlowEnd.DoubledQuoteMisread` | app/ser2net_import.py:158-164 | an input outside that: a quote doubled inside single quotes ends the collection too early |
| `QuotedScalar.CloseQuote` | app/ser2net_import.py:105-119 | the first closing quote, escapes and doubled single quotes passed over |
| `QuotedScalar.FoldQuoted` | app/ser2net_import.py:133-150 | folding, then unescaping or undoubling, equals the recursive definition that the next rows characterise |
| `QuotedScalar.FoldsBack` | app/ser2net_import.py:133-150 | text wrapped over lines with any indentation, empty lines and joined breaks folds to its pieces with a space, the newlines or nothing between them |
| `QuotedScalar.WrappedReadsBack` | app/ser2net_import.py:122-150 | a whole double-quoted scalar, its pieces escaped and wrapped over lines in any such way, is read as the pieces with what the breaks stand for between them |
| `QuotedScalar.HexEscapeReadsBack` | app/ser2net_import.py:122-130 | every character that fits two, four or eight hexadecimal digits is read back from such an escape, whatever follows |
| `QuotedScalar.LetterEscapeReads` | app/ser2net_import.py:57-59 | a backslash and any other character is what YAML says, and is kept where YAML says nothing |
| `QuotedScalar.ScalarReadsBack` | app/ser2net_import.py:57-150 | every string, escaped between double quotes, is closed where it ends and read back |
| `FlowReader.Flow.Value` | app/ser2net_import.py:183-225 | the reader returns what the grammar gives at the cursor and leaves the cursor behind it; it ends on every text |
| `FlowReader.Flow.Collection` | app/ser2net_import.py:227-251 | the same for the rest of a list or map; an item that becomes a key is stored as its text |
| `FlowTheorems.ReadPrint` | app/ser2net_import.py:180-251 | wherever a printed tree stands in a text, the reader stops right behind it and returns it, entry order and repeated keys kept, if and only if no map in it has a collection for a key; such a key comes back as its text |
| `FlowTheorems.AliasReads` | app/ser2net_import.py:209-215 | an alias is what its anchor holds, an unknown one an error |
| `FlowTheorems.SingleQuotedReads` | app/ser2net_import.py:202-208 | a single-quoted scalar on one line is read as its text, doubled quotes included |
| `FlowTheorems.KeyedIff` | app/ser2net_import.py:239-246 | turning the items that stand as keys into text leaves a tree alone exactly when all its keys, at every depth, are scalars |
| `FlowTheorems.ReadFlow` | app/ser2net_import.py:403-415 | lines are joined until the collection ends, the tail is checked and the text is read |
| `FlowTheorems.FlowReadsBack` | app/ser2net_import.py:153-415 | a printed collection spread over any number of lines is read back, with no line too many, if and only if only blanks or a comment follow it on the last line and no collection in it stands as a key |
| `FlowTheorems.TailMeans` | app/ser2net_import.py:409-411 | what may follow on the line is white space, or white space and a comment |
| `FlowTheorems.ListKeyBecomesText` | app/ser2net_import.py:239-246 | an input where it fails: a map with the list of "a" as its key is read with the text of that list as the key |
| `Assemble.PickName` | app/ser2net_import.py:1379-1383 | the renaming loop ends and picks the first free name of its series: the name itself, then with " (2)", " (3)" and so on |
| `Assemble.DecimalReads` | app/ser2net_import.py:1383-1383 | the number in a new name is the decimal form of its count, without leading zeros |
| `Assemble.AssembleConns` | app/ser2net_import.py:1357-1395 | the two loops compute the kept, renamed and disabled connections |
| `Assemble.KeepComplete` | app/ser2net_import.py:1360-1376 | nothing is dropped unless it does not validate or clashes with one kept before |
| `Assemble.FinishExact` | app/ser2net_import.py:1377-1394 | what may change and when: the name to the first free one, active to inactive exactly when an earlier active connection has the device, nothing else |
| `Assemble.AssembledSound` | app/ser2net_import.py:1357-1395 | all valid, no overlapping listeners, all names different, no device active twice |
| `Assemble.CrossCheck` | app/config.py:966-1020 | the loop with its two dictionaries accepts a configuration if and only if its mappings are valid and pairwise compatible |
| `Assemble.OverlapMeans` | app/config.py:1016-1020 | two listening addresses overlap if and only if some address is taken by both, where 0.0.0.0 and :: take all |
| `Assemble.AssembledPasses` | app/ser2net_import.py:1357-1395 | every import passes that check as a whole (with app/config.py:966-1002) |
| `Quote.MakeQuoted` | app/winservice.py:81-96 | the loop with its backslash counter computes the quoted form |
| `Quote.SplitJoin` | app/winservice.py:81-112 | splitting the joined line by the documented rules gives back every list of arguments, under either reading of doubled quotes |
| `Quote.ProgramNameExact` | app/winservice.py:81-112 | the program name comes through if and only if it has no quote in it and, when it needs quoting, no backslash at its end |
| `Quote.ServiceCommandReadsBack` | app/winservice.py:99-112 | Windows starts the named program with exactly the arguments given |

## Left out

- Sockets, serial ports, TLS, MQTT, RFC 2217, the Windows API, web pages: I/O and libraries outside the source. What they deliver is a parameter or an arbitrary step.
- Error texts, log lines, warnings, status counters and monitors: an error is modelled, not what it says.
- Floats: scaled values, float32 and Double arithmetic. A number given for a Float or Double metric is the bytes that carry it.
- Sparkplug.EncodeMetric: an int given for a Float or Double metric is refused here; the source packs it like the float it converts to, which is the case of a float value.
- Sparkplug.EncodePayload: the same for the metrics of a payload.
- Python's equality of values is an arbitrary relation in `Node`: NaN counts as changed each time, -0.0 and 0.0 or 1 and True as unchanged, and the host agrees with the node all the same, because what is not reported is not stored either.
- bdSeq, the will message, and data published before the first NBIRTH: they depend on callbacks of the MQTT client. The publisher drops messages while disconnected; the host theorem is about the messages since an NBIRTH that all arrive.
- `Gateway` is a step system on values, not a class: the object's fields are shared by tasks that interleave, and each step is one atomic stretch. The lock's waiting order, max_connections, the address filter and the idle timers are arbitrary choices of the scheduler.
- A Modbus reply is shown to come from the requested unit after the request; that it answers this request is not claimed, because a late reply to an earlier one can arrive after the stale bytes were discarded.
- The range and type checks of the read and write builders apply to integers here; the rejection of other Python types is not modelled.
- Telnet replies are lost when the output is at its cap and not taken; `TelnetRuns.RepliesAlternate` therefore needs the bridge's reads, and two sessions with negotiation already in flight are not covered.
- Clients: the banner, idle and lifetime guards, RFC 2217 polling, and the limit on connections. A kicked client stays registered until its task ends, so that limit does not hold in every interleaving.
- closeon: delivery of the data that triggered it is shown if the pump gets its turns (`Clients.GracefulFlushes`); the other pump may end first.
- Tracer: the format of a line, I/O errors and a failed rotation.
- Tracer threads are a step system on values; `TraceFiles` keeps the object form of the file part.
- The YAML block reader and the option tables of the importer.
- FlowTheorems.FlowReadsBack: plain scalars on one line with punctuation right behind them, and single-quoted ones without a quote in them; `FlowEnd.DoubledQuoteMisread` shows why the latter. Plain scalars over several lines are in the reader's grammar but not in the theorem.
- QuotedScalar.FoldQuoted: an escape for a surrogate is an error here, where Python builds a lone surrogate; strings are Unicode scalar values.
- FlowReader.Flow.Value: the text of a list or map that stands as a key is an arbitrary function of it, not Python's own. Python's recursion limit is not modelled.
- Assemble.AssembleConns: connections are updated as list elements by value; objects shared outside the list are not modelled. The per-connection checks that do not look at the name are one flag.
- Where code and description differ the code is followed: an RTU frame of three bytes (an empty PDU with a right CRC) is too short, so wrapping an empty PDU cannot be undone.
- Import merging, login, notifications, supervision and single-field validation: they would only add easy members.
