# EtherBone library: verified model

EtherBone carries cycles of Wishbone bus operations over a packet or stream link. A *master*
validates the operations a user has queued, packs them into records and sends them; a *slave*
decodes the records, performs the bus accesses and builds its reply in place over the request; the
replies come back as writes to the master's configuration space, which fill in read values and error
flags and finally call the user back. Around this sit a queue of responses kept as two linked lists,
wrap-around return addresses, 16-bit deadlines and a memory pool with 16-bit indices. On top of it
runs the self-description table that lists the devices of a bus. The last part of the model is the
time stamp ring of the digital I/O card.

`dafny verify dfyconfig.toml` checks everything.

## How the model is laid out

- `Bytes`, `Widths`, `Format`, `Lists`, `Buffer`: words, port widths, select lines, the record format,
  index-linked lists as sequences, and words in a byte buffer.
- `Slave`, `SlaveLoop`: what a byte string makes a slave do, and the loop that does it in place.
- `Master`, `Scan`, `Sender`, `Flush`, `Device`, `Parcels`: validation and packing, the loops that scan and format,
  what becomes of each queued cycle, and the buffered flush.
- `Meaning`, `Groups`, `Plans`: packing preserves meaning; how error reads divide a cycle; that every
  record takes as much as it can.
- `Layout`: the wire format byte by byte.
- `Calls`, `Answers`: a slave called again and again as a stream comes in; what it answers and what an
  answer does to a response, in terms of the records and operations.
- `ReadWrite`, `Replies`, `EndToEnd`, `Conversation`, `Packets`: the return path, up to whole batches in
  bytes and to flushes of several packets answered in any order.
- `Links`, `Inflight`, `Claims`, `Timers`, `Clock`: the queue of responses, return addresses, deadlines.
- `Pool`, `Lifecycle`, `Moves`, `Protocol`, `Flushing`, `Occupancy`, `Library`: memory, the life of cycles
  and devices over every run, and the code that opens, fills, closes and kills them.
- `Order`, `Outcomes`, `Routing`, `Promises`, `Witnesses`: over every run, that the user's order is kept,
  what each callback says and hands out, where replies go and who was sent; concrete runs.
- `Sdb`, `SdbSearch`, `Tables`: the table and the asynchronous search of a tree of buses; the table byte by
  byte, and failed reads.
- `DioRing`: the time stamp rings.

A bus is an oracle that answers the n-th access with a value and a failure flag, so every result
holds for any devices. An operation list is a sequence and its cursors are indices into it. Words are
natural numbers; wrap-around and truncation are written out. `Direct` in `Meaning` is the independent
definition of what a cycle means: each operation, one by one, with an error read after every full
group.

## Assumptions

- A 64-bit build: data and addresses are 8 bytes. Port widths have been negotiated.
- Callbacks only record; they do not call the library.
- The clock given to a check never goes backwards and stays below 2^32 - 5. Results about deadlines also
  need polls at most 2^15 seconds apart while both lists of responses are in use; at other times any
  pause will do, so the first check may come at any time after the socket's clock of 0.
- Fewer than 256 cycles are open on a device at a time (`unready` is one byte).
- A packet transport's `mtu` is between 8 and the buffer size; 0 means a stream.
- Without checking, the operation limit is never reached: it is the largest unsigned number, and the
  pool has fewer items.
- Handles passed to the library are open ones.

## Findings

Places where the code does not do what one would expect, each with its exact condition.

- A configuration read reaches the address asked for exactly when the address fits the port's address
  width and the operation is not little-endian; the others read elsewhere (`EndToEnd.ConfigReadExact`).
- A cycle that ran out of memory and is killed by closing its device before it was sent hands the user
  its own index as if it were an operation; all others hand out an operation or null
  (`Flushing.HandedByClose`; `Witnesses.HandedItself` is a run that does it). The flush path hands out
  null for such a cycle.
- After 2^14 further claims a return address is reused, and a reply then reaches the older response
  (`Claims.RoutesExactly`, over every run `Routing.RepliesRoute`).
- A deadline more than 2^15 seconds away is misread (`Timers.DueExact`).
- A scan of a bus without devices fails, as does one with more than 255 (`Sdb.ScanSucceedsIff`).
- A slave ends a cycle on the wire whenever a record ends its cycle, reads nothing, and the last record of the
  call that read anything did not end its own cycle. So a cycle that asks for nothing is answered by a
  lone end of cycle exactly if it follows, in the same call, a cycle whose end was sent that way
  (`Answers.RecordAnswered`, with a case in `Answers.SpareEnd`).
- The stamp command means to refuse waiting on several channels, but tests another flag: it refuses as
  meant exactly when that flag is set together with both others and only then (`DioRing.RefusedIff`).
  It does not check the channel it is given: it looks only at channels of the card exactly when it is
  refused, carries a mask, or names an existing channel (`DioRing.Card.Stamp`).
- The public header promises that a cycle reported with a status other than OK was never sent, and that
  one reported OK was (`wr-starting-kit/etherbone/api/etherbone.h:467-468`). Both fail. A cycle called
  back was sent exactly if its status is a segfault or a failure; or a timeout, and it was awaiting its
  reply; or OK, and it held an operation (`Promises.SentExactly`). So the first promise fails exactly for
  segfaults, failures and timeouts in flight, the second exactly for empty cycles;
  `Witnesses.SentThenTimeout` and `Witnesses.EmptyNotSent` are runs that break them.

## Model

| member | source | states |
|---|---|---|
| `Bytes.LaneRoundTrip` | wr-starting-kit/etherbone/api/format/slave.c:328-332 | A value shifted into its byte lane by the master (`wv <<= op_shift<<3`) fits the word, and the slave's shift and mask give it back, for every lane of every port width. |
| `Bytes.DecodeEncode` | wr-starting-kit/etherbone/api/format/slave.c:43-58 | Loading a big-endian word that was stored gives the value, reduced to the stored width. |
| `Buffer.StoreWord` | wr-starting-kit/etherbone/api/format/master.c:45-51 | Stores exactly the big-endian bytes of the word at its place and changes no byte behind it; what lies before stays. |
| `Buffer.LoadWord` | wr-starting-kit/etherbone/api/format/slave.c:43-50 | Reads the big-endian value of the bytes at a place. |
| `Layout.AlignIs` | wr-starting-kit/etherbone/api/format/master.c:87-97 | Words are as wide as the wider of data and address but at least two bytes; headers as wide as a word but at least four. |
| `Widths.RefinePicksLargest` | wr-starting-kit/etherbone/api/glue/widths.c:32-62 | Refinement yields one data and one address width, both offered, the largest on offer, exactly when a width of each kind is on offer; it is idempotent. |
| `Widths.NegotiationAgrees` | wr-starting-kit/etherbone/api/glue/device.c:119-160 | Opener and passive side, each refining what it knows of the other, settle on the same widths; they do so exactly when their sets have a data and an address width in common, and refining again changes nothing. |
| `Widths.SelectRoundTrip` | wr-starting-kit/etherbone/api/format/master.c:437-452 | The select lines the master raises for a lane are decoded by the slave as that lane. |
| `Widths.SelectAcceptsOnlyLanes` | wr-starting-kit/etherbone/api/format/slave.c:238-257 | The slave accepts no select mask but that of an aligned power-of-two lane that fits the port. |
| `Layout.SelectLines` | wr-starting-kit/etherbone/api/format/master.c:437-452 | A select line is raised exactly if its byte of the bus word belongs to the operation. |
| `Layout.AddressesExact` | wr-starting-kit/etherbone/api/format/slave.c:255-258 | A device of the byte order the user chose sees the user's address; one of the other order sees the same bytes of the same word counted from its other end. |
| `Format.ParseSerialize` | wr-starting-kit/etherbone/api/format/slave.c:222-307 | Parsing a serialized record, whatever follows it, gives the record and what follows. |
| `Format.SerializedSize` | wr-starting-kit/etherbone/api/format/slave.c:71 | Every record, up to 255 writes and 255 reads at any width, is aligned and fits the 4104-byte buffer. |
| `Layout.RecordLayout` | wr-starting-kit/etherbone/api/format/format.h:39-44 | The record bit by bit and word by word: the six flags, the select lines, the two counts, zeros, then base and values of the writes and base and addresses of the reads, each big-endian at its place. |
| `Layout.HeaderNamesPort` | wr-starting-kit/etherbone/api/format/master.c:108-118 | A packet header has the magic, version 1, and the widths of exactly one port. |
| `Master.ValidateSound` | wr-starting-kit/etherbone/api/format/master.c:162-213 | An operation that passes validation keeps its kind, space, address and value, and gets the largest size that it offers and the port can move; size, byte order, address and value then fit each other and the port. |
| `Master.ValidateExact` | wr-starting-kit/etherbone/api/format/master.c:162-213 | Every request is judged by the largest size it offers that the port can move: with none the width is bad; otherwise the status names the first that fails of byte order (exactly one, unless a full word), address (aligned and within its space) and value (fits), and the request is accepted exactly when none fails. |
| `Master.PlanIsGood` | wr-starting-kit/etherbone/api/format/master.c:254-375 | Every planned record takes at most 255 writes and 255 reads that fit one record, never exceeds the operations an error read can report, and makes progress: operations are consumed, or an error read clears a positive count. |
| `Scan.ScanRecord` | wr-starting-kit/etherbone/api/format/master.c:261-375 | The scanning loops compute exactly the plan the other results are about, which `Plans.PlanIsLongest` describes. |
| `Plans.PlanIsLongest` | wr-starting-kit/etherbone/api/format/master.c:261-375 | Over the fields of the operations: a record's writes chain and stop only at the end of the list, at 255, at a full group, or at an operation that is no write, of another space, size or byte order, or not at the expected address; its reads likewise, by byte lanes; and it carries the error read exactly if it reads nothing else, writes nothing or whole words, and has a full group or the last operations to report on. |
| `Plans.PlannedOnce` | wr-starting-kit/etherbone/api/format/master.c:261-375 | Only one plan fits that description. |
| `Plans.ConsecutiveWritesSize` | wr-starting-kit/etherbone/api/format/master.c:318-328 | An unchecked cycle of up to 255 writes to consecutive words is one header, one base address and the values. |
| `Sender.StoreRecord` | wr-starting-kit/etherbone/api/format/master.c:445-502 | The formatting loops append exactly the serialized record of a plan to the buffer and keep what is before it. |
| `Groups.GroupsAreFull` | wr-starting-kit/etherbone/api/format/master.c:250-487 | In a checked cycle the error reads cut the bus operations into groups: every operation is in exactly one, each group has as many as the data port has bits, only the last may be smaller, and none is empty. An unchecked cycle has none. |
| `Meaning.RecordMeansOps` | wr-starting-kit/etherbone/api/format/slave.c:222-411 | One record executed by the slave does exactly the operations it was made from, in order, and the error read if it carries one; its reply delivers exactly their results. |
| `Meaning.PackingPreservesMeaning` | wr-starting-kit/etherbone/api/format/master.c:250-503 | For every valid operation list, port, bus and earlier history, executing the packed records performs each operation once, in list order, at its own size, space, value and lane, plus the error reads; the replies deliver what the plain run owes. |
| `Slave.RunResumes` | wr-starting-kit/etherbone/api/format/slave.c:427-441 | Executing a stream piece by piece, keeping the unread rest, is executing it at once. |
| `Slave.SameAccesses` | wr-starting-kit/etherbone/api/format/slave.c:222-411 | Which accesses a byte string causes does not depend on what the devices answer. |
| `Calls.CallsConcat` | wr-starting-kit/etherbone/api/format/slave.c:426-446 | Cutting a stream into calls of which all but the last consume their input causes the same accesses as one call on all of it, whatever devices answer in each. |
| `Calls.ServeAll` | wr-starting-kit/etherbone/api/glue/socket.c:421-431 | The slave called on a stream until it fails or the stream ends, each call in place in one buffer: whatever pieces come in, the accesses are those of one call on all bytes received, what is sent is the replies of the calls in order, and without a failure all of the stream is received. |
| `Slave.ReplyNoLonger` | wr-starting-kit/etherbone/api/format/slave.c:352-418 | A record's reply, terminator included, is never longer than the record, and fits the buffer. |
| `Slave.LastReplyEndsCycle` | wr-starting-kit/etherbone/api/format/slave.c:361-418 | If the last record of an input ends its cycle, so does the last reply, if there is one. |
| `SlaveLoop.ProcessRecord` | wr-starting-kit/etherbone/api/format/slave.c:222-419 | Executing one record in place: reply bytes appear before the read position, which they never pass, all offsets stay aligned, and no unread byte changes. |
| `SlaveLoop.AwaitRecord` | wr-starting-kit/etherbone/api/format/slave.c:278-307 | Waiting for the rest of a record keeps unread bytes plus bytes still to come, and there is always room to receive more. |
| `SlaveLoop.DrainRecords` | wr-starting-kit/etherbone/api/format/slave.c:222-419 | All whole records in the buffer are executed; what is left is shorter than a record header. |
| `SlaveLoop.SendAndRefill` | wr-starting-kit/etherbone/api/format/slave.c:421-441 | Sending what has been replied and receiving more loses and invents no byte. |
| `SlaveLoop.Serve` | wr-starting-kit/etherbone/api/format/slave.c:207-446 | The whole in-place loop, for every input and every division of the stream into chunks, executes exactly the records of the bytes consumed and sends exactly their replies; it succeeds exactly when everything was consumed and the cycle had ended. |
| `SlaveLoop.ServeMessage` | wr-starting-kit/etherbone/api/format/slave.c:116-225 | A message of less than two bytes, or shorter than its padded header, is refused without effect; any other is served as above. |
| `Answers.RefusedWrites` | wr-starting-kit/etherbone/api/format/slave.c:331-347 | Writes whose select lines name no lane ask no device; on the bus each is shifted into the error register as a failure, in configuration space they are dropped. |
| `Answers.RefusedReads` | wr-starting-kit/etherbone/api/format/slave.c:382-404 | So with reads, which answer zero. |
| `Answers.RecordAnswered` | wr-starting-kit/etherbone/api/format/slave.c:355-418 | A record that reads is answered by one record: same lanes, base and cycle end, one value for each read, in the space and manner it asked for. A record that reads nothing is answered by a bare end of cycle exactly if it ends its cycle and the last reading record of the call did not. |
| `Answers.SpareEnd` | wr-starting-kit/etherbone/api/format/slave.c:413-418 | A cycle that asks for nothing is answered by such an end if the cycle before it was. |
| `Replies.ReadConfigWord` | wr-starting-kit/etherbone/api/glue/readwrite.c:178-201 | The gathering loop answers what `Answers.ReadConfigIs` describes, and its accumulator cannot overflow. |
| `Answers.ReadConfigIs` | wr-starting-kit/etherbone/api/glue/readwrite.c:178-201 | A configuration read at address a of n bytes answers the register divided by 256^(8 - a - n), modulo 256^n; where it reaches past byte 7, the register's last bytes followed by zeros; beyond byte 7, zero. |
| `EndToEnd.StatusBits` | wr-starting-kit/etherbone/api/glue/readwrite.c:134-176 | Bit i of an error word is the outcome of the access i before the latest. |
| `ReadWrite.MarkSpec` | wr-starting-kit/etherbone/api/glue/readwrite.c:85-110 | An error word marks exactly the next bus operations, each with its own bit, oldest highest, and skips configuration operations. |
| `Replies.Receive` | wr-starting-kit/etherbone/api/glue/readwrite.c:66-124 | The cursor, counting, marking and error-scan loops do to a response exactly what the step the end-to-end results are about says. |
| `Answers.ValueArrives` | wr-starting-kit/etherbone/api/glue/readwrite.c:66-82 | A value goes to the read that has waited longest and the response goes on to the next; if no read waits the cycle fails. |
| `Answers.StatusArrives` | wr-starting-kit/etherbone/api/glue/readwrite.c:84-124 | A status word marks the next bus operations, as many as it has bits or as there are, each by its own bit, the oldest by the highest; if none is left the cycle fails. The response is done exactly when it waits for nothing, with a segfault exactly if an operation is marked. |
| `EndToEnd.SlaveExecutesCycle` | wr-starting-kit/etherbone/api/format/slave.c:222-411 | The bytes of a cycle make the slave perform the plain run of its operations, whatever it did before and whatever follows. |
| `EndToEnd.RepliesCompleteCycle` | wr-starting-kit/etherbone/api/glue/readwrite.c:66-132 | The write-backs of a cycle complete its response exactly at the last of them; then each read has the value its own access returned, an operation has the error flag exactly when the cycle is checked and its own access failed, and the status is a segfault exactly when there is such an operation. |
| `EndToEnd.ConfigReadExact` | wr-starting-kit/etherbone/api/format/slave.c:385-393 | A configuration read reaches the address asked for exactly when that fits the address width and the operation is not little-endian. |
| `Conversation.SlaveExecutesBatch` | wr-starting-kit/etherbone/api/format/slave.c:222-411 | Any number of cycles sent together are executed as the plain run of all their operations in order. |
| `Conversation.BatchAnswered` | wr-starting-kit/etherbone/api/glue/readwrite.c:38-133 | Delivering the slave's replies to a batch takes exactly the responses issued for it out of the queue, oldest first, each with exactly its own results, and leaves all other responses, older and newer, as they were. |
| `Conversation.BatchConversation` | wr-starting-kit/etherbone/api/format/slave.c:213-446 | The same in bytes: one fresh call of the slave on the bytes of a batch executes it and leaves nothing over, and what the master's own record loop reads in the reply bytes finishes the batch, with older and newer responses in flight. |
| `Conversation.FlushedStream` | wr-starting-kit/etherbone/api/format/master.c:131-556 | What a flush gives a stream transport is the bytes of such a batch: the accepted cycles of the queue, in order. |
| `Conversation.FlushedPackets` | wr-starting-kit/etherbone/api/format/master.c:397-412 | What a flush gives a packet transport is such a batch cut between cycles: behind its header each packet has the bytes of consecutive whole cycles. |
| `Packets.PacketsAnswered` | wr-starting-kit/etherbone/api/glue/readwrite.c:38-133 | The replies to several packets, delivered in any order, some lost and some repeated, each from a fresh call of the slave: the first to each packet finishes exactly the responses of its cycles with exactly their own results, repeated ones change nothing, and all other responses stay in order. |
| `Packets.FlushAnswered` | wr-starting-kit/etherbone/api/format/master.c:397-556 | From flush to callback: for the packets a flush sends, with responses of earlier and later flushes in flight and all claims within 2^14, that is what becomes of its responses; with every packet answered exactly they are gone. That addresses do not clash follows from the claims. |
| `Flush.OverflowIff` | wr-starting-kit/etherbone/api/format/master.c:383-427 | A valid cycle is refused for its size exactly on a packet transport and exactly when a header and its bytes exceed the packet size; a stream never refuses one. |
| `Outcomes.FirstBadFrom` | wr-starting-kit/etherbone/api/format/master.c:162-217 | Validation stops at operation i with a status exactly if that request is rejected with it and all before it are accepted. |
| `Outcomes.FateExact` | wr-starting-kit/etherbone/api/format/master.c:145-427 | What becomes of a queued cycle, in terms of its requests: out of memory; empty; its first bad operation; no memory for a response; sent if it fits, awaiting a reply exactly if something is owed; else the first operation of the record that outgrows the packet. |
| `Outcomes.SettleExact` | wr-starting-kit/etherbone/api/format/master.c:145-519 | The callback a flush makes for each of these, with the operation it names, and what it sends. |
| `Flush.ReadsBackIff` | wr-starting-kit/etherbone/api/format/master.c:475-502 | A cycle asks for a reply exactly when some operation returns a value or awaits an error bit. |
| `Flush.StartArrived` | wr-starting-kit/etherbone/api/format/master.c:506-519 | A response just set up has nothing to wait for exactly when nothing is owed. |
| `Device.Output.Reserve` | wr-starting-kit/etherbone/api/format/master.c:383-427 | Makes room: a stream sends what it has; a packet sends its finished cycles and keeps the unfinished one; failure means that the unfinished cycle alone is too large. |
| `Device.Output.PackCycle` | wr-starting-kit/etherbone/api/format/master.c:250-503 | Appends the whole cycle or, if it cannot fit, none of it, naming the operation at which it outgrew the packet. |
| `Device.Device.Flush` | wr-starting-kit/etherbone/api/format/master.c:57-558 | The buffered, packet-splitting loop over the queue does exactly what a cycle-by-cycle account says: callbacks, return addresses, responses and bytes; `Outcomes.SettleExact` says what each cycle adds to it. Every packet is a header and whole cycles within the packet size; the stream is their concatenation; cycles that are refused contribute no bytes. |
| `Parcels.PacketsAreFull` | wr-starting-kit/etherbone/api/format/master.c:383-427 | The packets of a flush hold, in order, the cycles tried that fit a packet at all; none is empty or too large; and each but the last was sent because the next cycle tried did not fit behind it. |
| `Links.Flip` | wr-starting-kit/etherbone/api/glue/socket.c:157-170 | Reverses a list of responses in place; only links change. |
| `Links.Partition` | wr-starting-kit/etherbone/api/glue/socket.c:218-247 | Splits a list in place by device, reversing each part onto what was there. |
| `Inflight.Queue.Issue` | wr-starting-kit/etherbone/api/format/master.c:525-527 | Chaining a response appends it to the queue the two lists stand for. |
| `Inflight.Queue.Lookup` | wr-starting-kit/etherbone/api/glue/readwrite.c:49-64 | Finds the oldest response at an address; splicing the second list in on the way changes neither order nor contents. |
| `Inflight.Queue.WriteBack` | wr-starting-kit/etherbone/api/glue/readwrite.c:38-133 | A write-back does to the queue exactly what its specification says: the oldest response at its address makes progress or, when done, leaves and is called back; without one nothing happens. |
| `Inflight.Queue.Kill` | wr-starting-kit/etherbone/api/glue/socket.c:249-285 | Takes exactly the device's responses out, reports them oldest first, and keeps the order of the rest. |
| `Inflight.Queue.Timeout` | wr-starting-kit/etherbone/api/glue/socket.c:329-355 | Splices only if the first list is empty, and answers the oldest response's 32-bit deadline, or 0 if there is none. |
| `Inflight.Queue.Expire` | wr-starting-kit/etherbone/api/glue/socket.c:374-392 | Takes out the longest run of due responses at the front of the first list, oldest first, and leaves the rest. |
| `Claims.ClaimIs` | wr-starting-kit/etherbone/api/format/master.c:522-523 | The k-th return address claimed is 0x8000 + 2 (k mod 2^14). |
| `Claims.AccountClaims` | wr-starting-kit/etherbone/api/format/master.c:515-523 | A flush claims consecutive addresses, one for each response it issues. |
| `Claims.RoutesExactly` | wr-starting-kit/etherbone/api/glue/readwrite.c:62-67 | A write-back to a response's address, value or status, reaches that response exactly when no older one in flight was issued a multiple of 2^14 claims before it. |
| `Claims.RoutesToIssuer` | wr-starting-kit/etherbone/api/glue/readwrite.c:62-67 | With everything in flight issued within 2^14 claims, every reply reaches the response that asked for it. |
| `Routing.RepliesRoute` | wr-starting-kit/etherbone/api/format/master.c:521-527 | After every run of the protocol the responses in flight are at the addresses of their numbers, in order of issue; a write-back reaches the one it is for exactly when no older one in flight was issued a multiple of 2^14 before it, so always if all are among the last 2^14. |
| `Timers.DueExact` | wr-starting-kit/etherbone/api/glue/socket.c:345-351 | The 32-bit deadline is recovered from its low half exactly when it is within 2^15 seconds of the time, on the 32-bit clock face. |
| `Timers.ExpiryExact` | wr-starting-kit/etherbone/api/glue/socket.c:374-392 | In a punctual state expiry takes exactly the responses of the first list whose true deadline has passed. |
| `Timers.NothingOutlivesTwoPolls` | wr-starting-kit/etherbone/api/glue/socket.c:339-398 | Over every run, with polls at most 2^15 seconds apart while both lists hold responses, a response whose deadline had passed by one poll is gone after the next. |
| `Clock.Watch.Poll` | wr-starting-kit/etherbone/api/glue/socket.c:329-398 | The same for the linked queue itself: a poll takes out exactly the due responses of the first list, and whatever stays was not due at the poll before. From a new socket, whose clock is 0, it may come at any time. |
| `Clock.Watch.WriteBack` | wr-starting-kit/etherbone/api/glue/readwrite.c:38-133 | A write-back keeps the stored deadlines in step with the true ones and the queue punctual. |
| `Clock.Watch.Kill` | wr-starting-kit/etherbone/api/glue/socket.c:249-285 | So does killing a device's responses. |
| `Pool.Pool.Expand` | wr-starting-kit/etherbone/api/memory/dynamic.c:41-70 | Doubles the array if there is memory and it is not full; live contents are kept, and the new items are free except the one with the null index. |
| `Pool.Pool.New` | wr-starting-kit/etherbone/api/memory/array.c:38-51 | Hands out an index of [128, 0xFFFF) that was not live and changes nothing else; answers null exactly when the chain is empty and the array cannot grow, and then every usable index is live. |
| `Pool.Pool.Free` | wr-starting-kit/etherbone/api/memory/array.c:53-57 | Takes a live item back; everything else stays live with its contents. |
| `Pool.Grown` | wr-starting-kit/etherbone/api/memory/dynamic.c:61-67 | The free chain of a grown array is exactly its new usable indices; at the largest size the null index ends the chain one item early. |
| `Library.Library.Open` | wr-starting-kit/etherbone/api/glue/cycle.c:48-83 | Opens a cycle, refuses on a passive or closing device, or reports lack of memory, and changes nothing else. |
| `Library.Library.Enqueue` | wr-starting-kit/etherbone/api/glue/cycle.c:190-217 | Adds an operation; without memory it empties the cycle and marks it with its own index; a marked cycle stays as it is. |
| `Library.Library.Destroy` | wr-starting-kit/etherbone/api/glue/cycle.c:85-99 | Frees exactly the cycle's operations; a marked cycle has none. |
| `Library.Library.Abort` | wr-starting-kit/etherbone/api/glue/cycle.c:101-111 | Releases a cycle without calling it back. |
| `Library.Library.Close` | wr-starting-kit/etherbone/api/glue/cycle.c:113-140 | Puts the operations in the order they were added and the cycle in front of its device's ready list, as `Order.InUsersOrder` describes. |
| `Order.InUsersOrder` | wr-starting-kit/etherbone/api/glue/cycle.c:113-140 | After every run a closed cycle that has not run out of memory holds exactly the requests put to it, in the order of asking, and is checked exactly if it was closed so; a device's ready list is the cycles closed and not yet flushed, the last one first. |
| `Order.FlushTakesFirst` | wr-starting-kit/etherbone/api/format/master.c:120-131 | After every run a flush settles the cycle that was closed first. |
| `Library.Library.CloseDevice` | wr-starting-kit/etherbone/api/glue/device.c:265-348 | The closing code has exactly the effect of the protocol's step: refused while cycles are filled; otherwise it kills what is in flight, then what is ready, oldest first, and unlinks the device. |
| `Order.ShutInOrder` | wr-starting-kit/etherbone/api/glue/device.c:280-317 | After every run, closing a device that may be closed reports timeouts: first for what is in flight for it in the order of sending, then for what was not sent in the order of closing. |
| `Protocol.NextSound` | wr-starting-kit/etherbone/api/glue/cycle.c:48-217 | Every operation keeps the invariant of the whole state and takes no callback back. |
| `Protocol.CalledBackOnce` | wr-starting-kit/etherbone/api/glue/readwrite.c:114-132 | In every reachable state each cycle ever opened is alive on an open device, aborted, or done; it has been called back exactly once if done and never otherwise. |
| `Protocol.AllReturned` | wr-starting-kit/etherbone/api/glue/device.c:280-317 | With all devices closed the pool holds no cycle, operation or response, and each cycle was called back once or aborted. |
| `Protocol.TagsExact` | wr-starting-kit/etherbone/api/glue/cycle.c:199-210 | In every reachable state the self-index marks exactly the cycles that ran out of memory and exactly the passive devices; any other value is null or names an existing operation or cycle respectively. |
| `Protocol.CloseDeviceSound` | wr-starting-kit/etherbone/api/glue/device.c:265-348 | Closing is refused exactly while a cycle is being filled; otherwise the device and all its cycles, and no others, are gone, and every one of them has been called back. |
| `Protocol.AnswerSound` | wr-starting-kit/etherbone/api/glue/readwrite.c:113-132 | A write-back makes exactly the callback, if any, that delivery to the queue says, and releases exactly that cycle. |
| `Outcomes.AnswerTells` | wr-starting-kit/etherbone/api/glue/readwrite.c:112-132 | A write-back that its response does not wait for fails the cycle; the last one it waits for calls it back, with a segfault exactly if an operation is marked; others make no callback. |
| `Outcomes.SendHands` | wr-starting-kit/etherbone/api/format/master.c:145-519 | The pool index a flush hands to the user: the first bad operation, the one that outgrew the packet, the first one of a cycle that awaits nothing, and null without an operation to name. |
| `Outcomes.FinishHands` | wr-starting-kit/etherbone/api/glue/readwrite.c:129 | A reply or a timeout hands out the first operation. |
| `Protocol.OpenCycleSound` | wr-starting-kit/etherbone/api/glue/cycle.c:48-83 | Opening a cycle succeeds exactly with memory on a device that is not closing; it fails for lack of memory first; and it adds exactly one empty cycle being filled. |
| `Flushing.FlushIsAccount` | wr-starting-kit/etherbone/api/format/master.c:131-556 | Flushing a device step by step in the protocol has exactly the effect that the send loop was proved to have. |
| `Flushing.KillFlyingSelects` | wr-starting-kit/etherbone/api/glue/socket.c:249-285 | Killing in the protocol takes out and calls back exactly what killing in the linked queue does, in the same order. |
| `Flushing.HandedByClose` | wr-starting-kit/etherbone/api/glue/device.c:307-313 | A cycle killed before it was sent hands the user one of its operations, or null, exactly when it had not run out of memory; one that had hands out its own index. |
| `Witnesses.HandedItself` | wr-starting-kit/etherbone/api/glue/device.c:307-313 | A run that ends in that case: a device and a cycle are opened, an operation finds no memory, the cycle and then the device are closed; the user is handed the cycle's index, which is no operation. |
| `Promises.SentExactly` | wr-starting-kit/etherbone/api/etherbone.h:467-468 | Over every run, a cycle called back had been handed to the transport exactly if its status is a segfault or a failure, or a timeout and it was awaiting a reply, or OK and it held an operation. |
| `Witnesses.SentThenTimeout` | wr-starting-kit/etherbone/api/glue/socket.c:374-392 | A run in which a cycle is sent and called back with a timeout. |
| `Witnesses.EmptyNotSent` | wr-starting-kit/etherbone/api/format/master.c:154-159 | A run in which a cycle is called back with OK and was not sent. |
| `Occupancy.StepUses` | wr-starting-kit/etherbone/api/glue/cycle.c:85-111 | Every operation of the protocol takes from the pool exactly the index it asks for, which was not in use, gives back exactly the indices of the cycles it releases and what it took in vain, and uses all others as before. |
| `Occupancy.FootprintsApart` | wr-starting-kit/etherbone/api/glue/device.c:307-317 | No index belongs to two cycles, so releasing the cycles of a device one after another gives each index back once. |
| `Occupancy.Perform` | wr-starting-kit/etherbone/api/memory/array.c:38-57 | One operation with the linked pool: every index it gives back is live when it is freed, and afterwards exactly the indices in use are live. |
| `Occupancy.PerformAll` | wr-starting-kit/etherbone/api/memory/array.c:38-57 | The same over every run, with lack of memory at any point. |
| `Occupancy.ServedRuns` | wr-starting-kit/etherbone/api/memory/array.c:38-51 | A pool that answers null or an index that is not live is all the protocol needs of one. |
| `Sdb.Serve` | wr-starting-kit/etherbone/api/glue/sdb.c:104-132 | Serving an aligned word answers what the table of all attached devices holds there, and zero beyond its end. |
| `Sdb.FillBlock` | wr-starting-kit/etherbone/api/glue/sdb.c:134-155 | Lays answers out big-endian in a buffer; reports an error, too little room, or success. |
| `Sdb.HeaderScanned` | wr-starting-kit/etherbone/api/glue/sdb.c:319-343 | Reading the first 32 bytes finds the magic and asks for exactly the whole table. |
| `Sdb.ScanBlocks` | wr-starting-kit/etherbone/api/glue/sdb.c:251-291 | Choosing a buffer by the header's count, laying the answers out and decoding them does what its specification says. |
| `Sdb.ScanRoundTrip` | wr-starting-kit/etherbone/api/glue/sdb.c:170-228 | Reading the table of 1 to 255 devices word by word at any port width and decoding it yields the same devices in order, all fields equal, shifted by the base of the bus; 256 records fill the reserved 0x4000 bytes. |
| `Sdb.ScanSucceedsIff` | wr-starting-kit/etherbone/api/glue/sdb.c:273-288 | With fewer than 65535 devices, a scan succeeds exactly when there are 1 to 255 of them, whatever is found beyond the reserved addresses. |
| `Tables.ScanFailsAs` | wr-starting-kit/etherbone/api/glue/sdb.c:273-288 | It fails as a bad read on an empty bus and for lack of room on one of more than 255 devices. |
| `Tables.DeviceLayout` | wr-starting-kit/etherbone/api/glue/sdb.c:82-102 | Every field of a device's record at its place, big-endian. |
| `Tables.HeaderLayout` | wr-starting-kit/etherbone/api/glue/sdb.c:56-80 | Every field of the first record: magic, count modulo 2^16, version 1, Wishbone, all addresses, product. |
| `Tables.DecodesBridge` | wr-starting-kit/etherbone/api/glue/sdb.c:209-212 | A bridge's record is decoded to its fields, child and addresses shifted by the base of the bus. |
| `Tables.DecodesIntegration` | wr-starting-kit/etherbone/api/glue/sdb.c:214-216 | An integration record is decoded to its product. |
| `Tables.FillCodeIs` | wr-starting-kit/etherbone/api/glue/sdb.c:134-155 | Laying out answers succeeds exactly if all are good and fit; it fails exactly if a bad one is met before the room is used up. |
| `Tables.FailedReadFailsScan` | wr-starting-kit/etherbone/api/glue/sdb.c:181-184 | A failed read anywhere makes a scan fail. |
| `Tables.HeaderGoesOn` | wr-starting-kit/etherbone/api/glue/sdb.c:317-345 | Whatever is found in the first 32 bytes, a scan goes on exactly with the magic, and reads as many records as the count says. |
| `SdbSearch.Search.Answer` | wr-starting-kit/etherbone/api/glue/sdb.c:533-567 | One answer in any order: pending stays the number of outstanding scans, and found plus lost plus still to be found is constant. |
| `SdbSearch.Search.Wait` | wr-starting-kit/etherbone/api/glue/sdb.c:579-581 | Waiting always ends, with nothing outstanding. |
| `SdbSearch.FindByIdentity` | wr-starting-kit/etherbone/api/glue/sdb.c:569-585 | A successful search reports the number of matches on the whole tree of buses and stores as many as fit, each once; without scan errors it succeeds. |
| `Tables.HitsAre` | wr-starting-kit/etherbone/api/glue/sdb.c:559-564 | What is searched for is exactly the devices of the whole tree with the given vendor and device number. |
| `DioRing.Channel.Capture` | wr-starting-kit/spec-sw/kernel/wr-nic-dio.c:658-677 | Storing a stamp appends it and drops the oldest beyond 511. |
| `DioRing.Channel.Take` | wr-starting-kit/spec-sw/kernel/wr-nic-dio.c:333-350 | Hands out the oldest stamps in order, as many as there are and as fit, and keeps the rest. |
| `DioRing.Card.Interrupt` | wr-starting-kit/spec-sw/kernel/wr-nic-dio.c:647-688 | An interrupt appends to each channel what its FIFO holds and leaves the others alone. |
| `DioRing.Card.Stamp` | wr-starting-kit/spec-sw/kernel/wr-nic-dio.c:305-386 | Answers from the first selected channel that has stamps, at most 16, or says to wait or try again. The channels it looks at all exist exactly when the command is refused, carries a mask, or names an existing channel; otherwise it stops at one that does not. |
| `DioRing.CommandExact` | wr-starting-kit/spec-sw/kernel/wr-nic-dio.c:311-386 | A command that is not refused is answered from the lowest channel asked for - by its bit in the mask or by number - that has stamps, with its oldest up to 16, which leave the ring; if there is none, to wait or to come again as the flag says, and no ring changes. |
| `DioRing.RunTracks` | wr-starting-kit/spec-sw/kernel/wr-nic-dio.c:324-357 | Over every sequence of interrupts and commands each ring is a queue of capacity 511 that drops its oldest; stamps are delivered in capture order, never twice, and each is delivered, lost or waiting. |
| `DioRing.NoneLostIff` | wr-starting-kit/spec-sw/kernel/wr-nic-dio.c:664-667 | A channel has lost nothing exactly when what it delivered is its captures in order without a gap. |
| `DioRing.LossIff` | wr-starting-kit/spec-sw/kernel/wr-nic-dio.c:664-667 | A step loses stamps on a channel exactly when more are captured than there is room for. |
| `DioRing.RefusedIff` | wr-starting-kit/spec-sw/kernel/wr-nic-dio.c:305-309 | A stamp command is refused exactly when it carries the flag for immediate output; that is as meant, refusing exactly a wait on several channels, if and only if that flag is set exactly when both others are. |

## Left out

- Sockets, TCP, UDP, device files and tunnels: a transport is a log of what is sent and a list of
  nonempty chunks that are received.
- The probe handshake as a protocol in time, discovery and retries; only the widths it settles on are
  modelled.
- The no-reads bit of the packet header: it is not exact in the code, and a slave ignores it, so a
  header is accepted with or without it.
- Attaching devices and their handlers: the bus is an oracle per access.
- Blocking wrappers, and callbacks that call the library.
- The operation format written back for the user to see after validation.
- Marking a killed response's cycle as null before its callback runs: nothing reads it in between.
- The library's records are kept in maps by kind that share one index space, not in the raw union;
  operation lists and ready lists are sequences there. The linked form is modelled for responses.
- Links and transports as pool items, and the failure paths of opening a device.
- Library.Library.Open: the open-cycle counter is a natural number, so its wrap-around at 256 is
  excluded by assumption.
- Sdb.ScanBlocks: bytes of the buffer that no answer reaches are zero instead of uninitialised.
- Sdb.ScanSucceedsIff: 65535 or more devices, whose number plus one no longer fits the 16-bit record
  count of the table, are excluded.
- Recursive bus discovery in the carrier drivers, the other kernel drivers, command-line tools, and
  the C++ bindings.
- DioRing.Card.Stamp: what the code reads and writes when it is given a channel that does not exist; the
  model stops there, and the results about runs exclude such commands.
- DioRing.Card.Interrupt: triggering the next pulse, CPU-rate limiting and register access; races
  between the interrupt and the command are excluded by taking each as one step.
