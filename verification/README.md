# Verified models of the TCF agent framework

The agent of the Target Communication Framework runs everything on one dispatch thread on top of a framed message protocol.
This project models the parts of its framework that have to be right for everything else to be, and proves what they promise:

* the wire format, its writer and the two-cursor input ring of its reader (`Wire`, `ChannelOutput`, `InputRing`,
  `InputExamples`, `EndToEnd`, `OutputQueue`),
* the event loop, the worker pool and the cache of transactions (`EventSpec`, `Events`, `WorkerPool`, `CacheSpec`, `Cache`),
* reply bookkeeping and the Hello and redirect protocol (`ReplySpec`, `ReplyWorld`, `Replies`, `ReplyExamples`,
  `Redirect`, `ProxyTokens`),
* decimal text of doubles, temporary memory, and values scattered over memory and registers (`DoubleText`, `DoubleFormat`,
  `DoubleConversion`, `TempPool`, `LocationBits`, `LocationPieces`, `LocationExamples`),
* base64, JSON strings and JSON values, and context queries (`Base64`, `BinaryStream`, `JsonString`, `JsonObject`, `JsonReader`,
  `QueryMatch`, `QueryParse`, `QueryGrammar`).

`Wrappers` holds the option type that all of them use.

`dafny verify dfyconfig.toml` checks all of it.

## How the models are built

Code that updates state is a class with the fields of the source and methods with its loops and branches; what the state means
is a predicate or function on values, so that most of the reasoning is in small lemmas that do not mention the heap. Every
operation of a class keeps the invariant of the class, and, where operations come in any order, a method `Run` puts them together
in an arbitrary schedule. Sections under a mutex are single steps. What a callback does is a parameter of the operation that calls
it: the commands a reply handler sends, the accesses a cache client makes. Sizes and contents of reads, completions of writes,
clock readings, spurious wakeups and the order of events are arbitrary.

Four places where the code does not keep what one would expect of it are stated as such, with the input that shows it and the
exact condition:

* The assertion on the message count at the end of a long message (agent/tcf/framework/inputbuf.c:261) fails exactly when the
  stream is marked as ended before that end of message arrives in the same chunk (`InputRing.Counters.AccountBroken`). The
  input: a message that fills the ring, and in it the end of the stream followed by the end of the message
  (`InputExamples.BrokenAssertion`). The model goes on as a build without assertions does.
* The sweep of the reply table on a disconnect unlinks an entry through a pointer taken before the handler is called
  (agent/tcf/framework/protocol.c:687-720). A handler is lost if and only if, in some turn of the sweep, the entry is the first of
  its chain, it has a handler, and that handler sends a command, with a handler of its own, on an open channel with peer services
  whose next token leads to the same chain. `ReplyWorld` states this on the state before the call (`TurnHit`, `ClosedHit`,
  `RunHit`), the methods of `Replies` prove both directions, and nothing is lost if handlers send commands on closed channels only
  (`ReplyWorld.HarmlessClosed`). The input: channel 16 has one command outstanding, whose handler sends a command on the channel
  at 16 times the table size (`ReplyExamples.LostReply`, for every table size from 3 up to 2^28, the source's 7 and 127 included).
  All other commands keep their tokens and their routing. For the lost one alone: its token is free again, so that after the
  protocol object of its channel has been replaced a newer command can get it, and then the late reply reaches that one
  (`ReplyExamples.LateReply`).
* A token is read into a buffer of 255 characters (agent/tcf/framework/protocol.c:97-109), and each proxy that relays a command
  puts a letter in front of it. The reply comes back with the token of the command if and only if the token and the letters fit
  (`ProxyTokens.RoundTrip`); otherwise it comes back with the end of the token cut off, or is dropped on the way
  (`ProxyTokens.Routed`). The input: a token of 255 characters and one proxy (`ProxyTokens.CutOff`).
* The exponent of a decimal number is computed in an int (agent/tcf/framework/mdep.c:1605-1649). It overflows, for a text whose
  length is an int, if and only if the exponent written or the exponent of the significand does not fit
  (`DoubleFormat.ParseDecimal`), as in 1E2147483648 (`DoubleFormat.BigExponent`); for a number that the agent has printed it never
  does (`DoubleConversion.ReadBack`).

Also as the code has it, and not as one might expect: a refusal (`N`) skips two messages exactly if it meets an entry without a
handler (`Replies.ReplyTable.HandleReply`); a part of a context query whose last condition is `**` is a wildcard whatever else it
says; a leading `**` stands for at least one context; a condition of a context query that ends with a quote may be followed by the
next one without a separator.

## Model

| member | source | states |
|---|---|---|
| `Wire.DecodeConcat` | agent/tcf/framework/inputbuf.c:99-181 | the decoder can be run over any split of a byte stream: running it over the first part and then over the second gives the state and the tokens of the whole |
| `Wire.WireBytes` | agent/tcf/framework/streams.h:31-34 | in numbers: 3 begins an escape sequence, 3 0 is the byte 3, 3 1 the end of a message, 3 2 the end of the stream, and every other byte is itself |
| `Wire.DecodeBlock` | agent/tcf/framework/inputbuf.c:110-127 | inside a binary block every byte, ESC included, stands for itself and the block counter goes down by one |
| `Wire.DecodePlain` | agent/tcf/framework/inputbuf.c:168-178 | outside a block, bytes other than ESC decode to themselves and leave the decoder where it was |
| `Wire.DecodePrefix` | agent/tcf/framework/inputbuf.c:99-181 | more bytes only append tokens; what was decoded before stays |
| `InputRing.RingFill` | agent/tcf/framework/inputbuf.c:51-64 | filling the free region behind the write position appends to the unread bytes of the ring and overwrites none of them |
| `InputRing.FreeZero` | agent/tcf/framework/inputbuf.c:51-64 | there is no room to read exactly when all slots but one hold unread bytes |
| `InputRing.RingUnwrap` | agent/tcf/framework/inputbuf.c:292-308 | copying a full ring so that the unread bytes come first keeps their order and contents |
| `InputRing.Counters.AccountSummary` | agent/tcf/framework/inputbuf.c:251-288 | what a chunk of tokens does to the message counters: one count per end of message, one for the end of the stream |
| `InputRing.Counters.AccountBroken` | agent/tcf/framework/inputbuf.c:257-266 | the assertion on the message count at the end of a long message fails if and only if a long message is open and the chunk marks the stream as ended before the first end of message |
| `InputRing.AssertionFails` | agent/tcf/framework/inputbuf.c:257-266 | the tokens that make it fail: end of stream, then end of message, inside a long message |
| `InputExamples.BrokenAssertion` | agent/tcf/framework/inputbuf.c:257-319 | a run from the start, for every ring of at least five bytes that does not grow, that ends with the failed assertion: the ring is filled, the long message begun, part of it read, and the two ends arrive in one chunk |
| `InputRing.AgreeReceive` | agent/tcf/framework/inputbuf.c:219-288 | scanning any chunk keeps the two decoders in agreement: the reader run over the pending bytes arrives at the state of the scanner, and the count is the number of unread ends of message plus one for a long message |
| `InputRing.AgreeLong` | agent/tcf/framework/inputbuf.c:310-319 | counting a message that fills the buffer before its end has arrived keeps the agreement |
| `InputRing.AgreeToken` | agent/tcf/framework/inputbuf.c:130-167 | handing out the token of an escape sequence keeps the agreement, and the counters drop by one at an end of message |
| `InputRing.AgreeDeliver` | agent/tcf/framework/inputbuf.c:110-178 | handing out a byte that stands for itself keeps the agreement |
| `InputRing.InputChannel.TriggerMessage` | agent/tcf/framework/channel_tcp.c:722-731 | a message that arrives while none is handled or announced posts one handler event; otherwise none is posted |
| `InputRing.InputChannel.FreeSize` | agent/tcf/framework/inputbuf.c:51-64 | the size of the region that may be read into, in terms of the ring positions |
| `InputRing.InputChannel.TriggerRead` | agent/tcf/framework/inputbuf.c:66-72 | after it a read is outstanding unless the ring is full or the stream has ended, and the unread bytes are the same |
| `InputRing.InputChannel.Scan` | agent/tcf/framework/inputbuf.c:219-288 | the loop of the scanner leaves the state, the counters and the end-of-stream flag of the pure decoder run over the new bytes |
| `InputRing.InputChannel.Receive` | agent/tcf/framework/inputbuf.c:205-288 | a completed read appends to the unread bytes, and the received bytes and the agreement of the two decoders are kept |
| `InputRing.InputChannel.ReadDone` | agent/tcf/framework/inputbuf.c:205-319 | a completed read of any length, or the end of the file, keeps the whole invariant through scanning, growth and the start of a long message; the assertion on long messages fails exactly under its condition |
| `InputRing.InputChannel.GrowIfFull` | agent/tcf/framework/inputbuf.c:292-308 | a full buffer is replaced by one of twice the size with the same unread bytes; otherwise nothing changes |
| `InputRing.InputChannel.Resume` | agent/tcf/framework/inputbuf.c:310-319 | after a read another one is outstanding, or a message is announced or being handled, or the stream has ended |
| `InputRing.InputChannel.WaitRead` | agent/tcf/framework/inputbuf.c:86-95 | a reader that has run out of bytes blocks until a read has completed: more of the stream has arrived, or it has ended; nothing is handed out meanwhile; the message is a long one and the only one counted |
| `InputRing.InputChannel.AskForMore` | agent/tcf/framework/inputbuf.c:92-93 | a read is outstanding when the reader blocks |
| `InputRing.InputChannel.GetMore` | agent/tcf/framework/inputbuf.c:74-182 | the slow path of reading: the token is the first pending one; reading removes it and accounts for it, peeking changes neither the pending tokens nor the message count |
| `InputRing.InputChannel.Read` | agent/tcf/framework/streams.c:31-33 | what is handed out is the first token of the decoding of the received bytes that has not been handed out yet |
| `InputRing.InputChannel.Peek` | agent/tcf/framework/streams.c:35-37 | the same token is shown and nothing is handed out or counted |
| `InputRing.InputChannel.PeekThenRead` | agent/tcf/framework/channel_tcp.c:629-645 | peeking announces what the next read returns |
| `InputRing.InputChannel.StartMessage` | agent/tcf/framework/inputbuf.c:321-333 | dispatching the handler event makes the message active if and only if the stream has not ended, and otherwise reports its end |
| `InputRing.InputChannel.Refinement` | agent/tcf/framework/inputbuf.c:74-182 | in every valid state the tokens handed out followed by the pending ones are the decoding of all bytes received, and the message count is the unread ends of message plus one for a long message |
| `InputRing.InputChannel.Run` | agent/tcf/framework/inputbuf.c:205-319 | over every schedule of arrivals (of any sizes), dispatches, reads and peeks the tokens handed out are a prefix of the decoding of the bytes received; each action of the schedule that can happen is taken, until the end of the stream is reported |
| `ChannelOutput.DecodeBinaryBlock` | agent/tcf/framework/channel_tcp.c:406-437 | a binary block with its length field decodes to its contents, whatever bytes they are, and leaves the decoder in its neutral state |
| `ChannelOutput.BlockOnWire` | agent/tcf/framework/channel_tcp.c:406-437 | in numbers: the bytes 3 3, the length in two or three groups of seven bits with the lowest first, and the contents |
| `ChannelOutput.FieldValue` | agent/tcf/framework/channel_tcp.c:417-437 | the length field written in seven-bit groups is read back as the length |
| `ChannelOutput.OutputChannel.Flush` | agent/tcf/framework/channel_tcp.c:354-390 | a flush sends exactly the buffered bytes, and no block is open then |
| `ChannelOutput.OutputChannel.OnFlushEvent` | agent/tcf/framework/channel_tcp.c:392-404 | the last flush event due, or any if more than three ends of message are buffered, empties the buffer; others change nothing; no block is open then, because the event comes between messages |
| `ChannelOutput.OutputChannel.BlockStart` | agent/tcf/framework/channel_tcp.c:406-415 | opening a block changes nothing of what has been written |
| `ChannelOutput.OutputChannel.BlockEnd` | agent/tcf/framework/channel_tcp.c:417-437 | closing a block fills in its length, which fits the field, and keeps what has been written; a block is never empty when it is closed |
| `ChannelOutput.OutputChannel.Write` | agent/tcf/framework/channel_tcp.c:439-468 | one byte or marker is added to what has been written, at any fill level and inside or outside a block; what it puts at the end of the buffer is the byte itself, or 3 0 for the byte 3 outside a block, 3 1 for the end of a message and 3 2 for that of the stream |
| `ChannelOutput.OutputChannel.WriteStream` | agent/tcf/framework/streams.c:39-42 | the fast path adds the same token as the slow one, with the same bytes at the end of the buffer |
| `ChannelOutput.OutputChannel.WriteBlock` | agent/tcf/framework/channel_tcp.c:470-504 | a block of any size is added byte by byte to what has been written, with zero copy on or off |
| `ChannelOutput.OutputChannel.WriteChars` | agent/tcf/framework/streams.c:52-106 | the string writers add their characters, with no raw ESC outside a block |
| `ChannelOutput.OutputChannel.WriteJsonString` | agent/tcf/framework/json.c:198-249 | the JSON string writer adds a quote and a text from which the string is read back, up to its closing quote, whatever follows; its direct copy never stores a raw ESC |
| `ChannelOutput.OutputChannel.Faithful` | agent/tcf/framework/channel_tcp.c:354-504 | while the channel is open the bytes sent decode to a prefix of what was written, to all of it once the buffer is empty; a buffered end of message has a flush event coming; no block is open between messages |
| `ChannelOutput.OutputChannel.Run` | agent/tcf/framework/channel_tcp.c:354-504 | over every mix of the writing paths, flush events between messages and zero-copy settings what has been written is the concatenation of what each call means |
| `EndToEnd.DeliveredInOrder` | agent/tcf/framework/inputbuf.c:74-182 | a reader behind a writer and its output queue, which has received any part of what the socket has taken, has been handed a prefix of what the writer has written |
| `EndToEnd.NothingLost` | agent/tcf/framework/channel_tcp.c:354-390 | once the writer has flushed, no write request is outstanding and what the socket has taken has arrived, what was handed out and what is pending are exactly what was written |
| `JsonString.ReadEscapeOfEscape` | agent/tcf/framework/json.c:150-187 | the escape sequence of a byte reads back as that byte |
| `JsonString.RoundTrip` | agent/tcf/framework/json.c:315-379 | every byte string written as a JSON string reads back unchanged, and reading stops right after the closing quote |
| `JsonString.QuotedRoundTrip` | agent/tcf/framework/json.c:225-249 | the same of the whole text with its quotes |
| `JsonString.Escapes` | agent/tcf/framework/json.c:150-187 | the escape sequences written out, in both directions |
| `JsonString.Codes` | agent/tcf/framework/json.c:267-283 | what hexadecimal digits stand for, and which bytes are escaped (json.c:69-86) |
| `JsonString.Utf8Bits` | agent/tcf/framework/json.c:299-313 | a code of up to four hexadecimal digits becomes its UTF-8 bytes: as many as its size needs, with its bits in order |
| `OutputQueues.OutputQueue.Alloc` | agent/tcf/framework/outputbuf.c:39-53 | a buffer comes from the pool or is new, and is in neither the queue nor the pool |
| `OutputQueues.OutputQueue.Free` | agent/tcf/framework/outputbuf.c:55-64 | a buffer goes to the pool unless that is full |
| `OutputQueues.OutputQueue.AddBuffer` | agent/tcf/framework/outputbuf.c:66-85 | the bytes of a buffer are added behind all others, whether an error is recorded or not: in the last buffer if they fit and it is not being written, and the buffer then goes to the pool, else as a buffer of their own; the first buffer of an empty queue is posted, and no other is |
| `OutputQueues.OutputQueue.Add` | agent/tcf/framework/outputbuf.c:87-118 | all bytes given are added in order, first into the room of the last buffer, never into the one being written, and the rest in full buffers but for the last |
| `OutputQueues.OutputQueue.Done` | agent/tcf/framework/outputbuf.c:120-143 | a completed write of any part moves just those bytes from the queued to the written ones, takes out the buffer when it is at its end and posts the next; an error clears the queue |
| `OutputQueues.OutputQueue.Clear` | agent/tcf/framework/outputbuf.c:145-151 | the queue is emptied |
| `OutputQueues.OutputQueue.Conservation` | agent/tcf/framework/outputbuf.c:39-151 | bytes written followed by bytes queued are all bytes added, in order; a request is outstanding exactly while the queue is not empty, for a buffer not touched since; no buffer is both queued and pooled |
| `OutputQueues.OutputQueue.Run` | agent/tcf/framework/outputbuf.c:66-143 | over every mix of additions, buffers handed over and partial completions, until an error, what was supplied is written in order and what is not written yet is queued; the contents of the buffers, what is written and whether an error is recorded are those of the steps taken one by one |
| `EventSpec.TimeIsNanoseconds` | agent/tcf/framework/events.c:131-149 | comparing and advancing times agrees with arithmetic on nanoseconds |
| `EventSpec.PostUntimedGood` | agent/tcf/framework/events.c:233-256 | an undelayed post keeps every promise about the queues |
| `EventSpec.PostTimedGood` | agent/tcf/framework/events.c:172-185 | a delayed post keeps the timer queue sorted by time and, among equal times, by order of posting |
| `EventSpec.PostTimedMeans` | agent/tcf/framework/events.c:172-185 | a delayed post puts the event behind the timers due no later and before those due later |
| `EventSpec.ReleaseGood` | agent/tcf/framework/events.c:404-426 | moving the due timers to the front of the event queue releases none before its time and keeps every promise |
| `EventSpec.ReleaseMeans` | agent/tcf/framework/events.c:404-426 | the timers that are due, and no others, go to the front of the event queue in their order |
| `EventSpec.DispatchGood` | agent/tcf/framework/events.c:445-460 | dispatching keeps undelayed events in order of posting and every post at exactly one place |
| `Events.ListInsert` | agent/tcf/framework/events.c:172-185 | linking a node in front of a position keeps the list well formed and puts the node there |
| `Events.ReleaseOk` | agent/tcf/framework/events.c:414-426 | splicing the due timers in front of the event queue keeps all lists well formed and the tail pointer right |
| `Events.EventLoop.Alloc` | agent/tcf/framework/events.c:90-98 | a node comes from the free list of the thread or from the heap, and is in no list |
| `Events.EventLoop.Free` | agent/tcf/framework/events.c:100-107 | a statically allocated node is recycled, any other goes back to the heap |
| `Events.EventLoop.PostEvent` | agent/tcf/framework/events.c:233-256 | the event, with time 0, its handler and its argument, is last in the event queue, and the node is not one of the other threads |
| `Events.EventLoop.PostEventWithDelay` | agent/tcf/framework/events.c:192-231 | the event is in the timer queue behind all timers that are due no later |
| `Events.EventLoop.PostFromBgThread` | agent/tcf/framework/events.c:151-190 | a post from another thread becomes a timer, or is absorbed by the cancel that waits for it |
| `Events.EventLoop.Cancel` | agent/tcf/framework/events.c:258-318 | the event taken out is the first one of the event queue with that handler and that argument, or, if there is none, the first such one of the timer queue; if there is none either and waiting is asked for, the next matching post is absorbed |
| `Events.EventLoop.RefillBg` | agent/tcf/framework/events.c:396-403 | free nodes are handed to the other threads until those have two or none is left; no node is lost |
| `Events.EventLoop.Poll` | agent/tcf/framework/events.c:393-443 | a poll releases exactly the timers that are due; background threads get free nodes once in a turn, and not again while the thread waits |
| `Events.EventLoop.Turn` | agent/tcf/framework/events.c:389-459 | a turn polls when no event is left, after 100 undelayed events, or when the clock says so after one, and starts the first event of the queue |
| `Events.EventLoop.Finish` | agent/tcf/framework/events.c:460-460 | the node of the executed event is freed |
| `Events.EventLoop.ExactlyOnce` | agent/tcf/framework/events.c:151-318 | in every valid state each post is at exactly one place: waiting, dispatched, cancelled or absorbed, with what was posted; undelayed events ran in order of posting and none before its time |
| `Events.EventLoop.NoStarvation` | agent/tcf/framework/events.c:393-460 | the undelayed event that is r-th in the queue was posted after at least as many others as there have been polls with events waiting, plus r: each such poll has dispatched one |
| `Events.EventLoop.PollsInTime` | agent/tcf/framework/events.c:393-396 | at most 100 undelayed events run between two polls |
| `Events.EventLoop.NodesAccounted` | agent/tcf/framework/events.c:90-107 | every node, from the static buffer or from the heap, is in exactly one list or is being executed until it is released, and in none afterwards; the tail pointer is the true tail |
| `Events.EventLoop.Run` | agent/tcf/framework/events.c:380-460 | every interleaving of posts from any thread, cancels, polls and dispatches keeps each post at exactly one place, and keeps the invariant, which includes that at most 100 undelayed events run between polls and at least one when any waits; queues and history are those of the steps taken one by one |
| `ReplySpec.AskGood` | agent/tcf/framework/protocol.c:451-466 | a command entered in the chain of an unused token keeps every promise about the reply table |
| `ReplySpec.AnswerGood` | agent/tcf/framework/protocol.c:180-191 | taking an entry out calls its handler once and makes its token lead nowhere |
| `ReplySpec.BuryGood` | agent/tcf/framework/protocol.c:703-710 | a tombstone keeps its token taken while its handler has been called |
| `ReplySpec.BuryIs` | agent/tcf/framework/protocol.c:703-710 | a tombstone has the channel and token of its entry and neither handler |
| `ReplySpec.HashExamples` | agent/tcf/framework/protocol.c:178-178 | the hash in numbers: four bits of the address are dropped, and the sum is cut to 32 bits |
| `ReplySpec.CutGood` | agent/tcf/framework/protocol.c:711-714 | what unlinking through the head of a chain does when commands were put in front in the meantime: they leave the table with their tokens, their handlers are lost, and every other token leads where it did |
| `ReplySpec.ExactlyOnce` | agent/tcf/framework/protocol.c:263-303 | no handler is called twice; one that has not been called waits in the table or for its failure event, or was lost |
| `ReplySpec.AllDelivered` | agent/tcf/framework/protocol.c:687-720 | once a channel has no entry left, every handler given for it has been called exactly once, except for failure events to come and lost commands |
| `ReplySpec.DistinctTokens` | agent/tcf/framework/protocol.c:453-466 | outstanding commands of a channel, tombstones included, have distinct tokens |
| `ReplySpec.LostCommand` | agent/tcf/framework/protocol.c:690-714 | the defect: a command that a handler sends during a disconnect and that lands in front of the entry being swept, when that is the first of its chain, is never answered |
| `ReplyWorld.LandingIs` | agent/tcf/framework/protocol.c:441-468 | what a callback's commands put in front of each chain: those for open channels with peer services whose tokens lead there |
| `ReplyWorld.LandsIff` | agent/tcf/framework/protocol.c:453-466 | a handler is among them if and only if some command of the callback that has one is accepted and its next token leads to that chain |
| `ReplyWorld.ClosedIff` | agent/tcf/framework/protocol.c:687-720 | the sweep cuts handlers out if and only if the state before it meets the condition of the defect in some turn |
| `ReplyWorld.ClosedCutNothing` | agent/tcf/framework/protocol.c:703-710 | a channel that is redirected and not disconnected loses nothing |
| `ReplyWorld.HarmlessClosed` | agent/tcf/framework/protocol.c:687-720 | nothing is lost if every command that handlers send is for a channel that is closed or has no peer services |
| `ReplyWorld.RunIff` | agent/tcf/framework/protocol.c:687-720 | a run loses a handler if and only if one of its disconnects meets the condition in the state it starts in |
| `ReplyWorld.SilentRun` | agent/tcf/framework/protocol.c:687-720 | no run loses anything if handlers send nothing |
| `ReplyExamples.SharedChain` | agent/tcf/framework/protocol.c:178-178 | for every table size from 3 up to 2^28, two channels whose first and second token share a chain |
| `ReplyExamples.TrapLoses` | agent/tcf/framework/protocol.c:687-720 | a table with one command, on the channel being disconnected, whose handler sends a command that gets the same chain: exactly that command is lost |
| `ReplyExamples.LostReply` | agent/tcf/framework/protocol.c:687-720 | a run from the start, for every table size from 3 up to 2^28, in which a command is lost and its handler never called |
| `ReplyExamples.LateReply` | agent/tcf/framework/protocol.c:735-744 | its continuation, in which the reply to the lost command calls the handler of a newer one after the token counter has restarted |
| `Replies.ReplyTable.FindReplyHandler` | agent/tcf/framework/protocol.c:180-191 | the entry found is the first one for the channel and token |
| `Replies.ReplyTable.NextToken` | agent/tcf/framework/protocol.c:453-456 | the token search ends, for a counter of any width that wraps, with the first token from the counter on that no outstanding command of the channel has, and leaves the counter behind it |
| `Replies.ReplyTable.SendCommand` | agent/tcf/framework/protocol.c:441-468 | the command is entered under that token at the head of its chain, or, on a closed channel or one without peer services, waits for its failure event, and nothing else changes; all unanswered commands keep their tokens |
| `Replies.ReplyTable.Callback` | agent/tcf/framework/protocol.c:441-468 | a callback that sends any commands changes the table as sending them one by one does; chains grow at the head only |
| `Replies.ReplyTable.SendCommandFailed` | agent/tcf/framework/protocol.c:433-439 | the failure event calls the handler of the command refused first |
| `Replies.ReplyTable.HandleReply` | agent/tcf/framework/protocol.c:263-303 | in every state a reply reaches the command that was sent with its token and is unanswered, and no other; its entry is removed and its handler called once; how often the rest of the message is skipped, by the entry met: twice if and only if a refusal meets an entry without a handler |
| `Replies.ReplyTable.SweepEntry` | agent/tcf/framework/protocol.c:687-720 | the exact condition of the defect on the state before: a handler is lost if and only if the channel is disconnected, the entry is the first of its chain and has a handler, and a command with a handler that it sends lands in that chain |
| `Replies.ReplyTable.ChannelClosed` | agent/tcf/framework/protocol.c:687-726 | every handler waiting on the channel is called; a disconnected channel has no entry left, a redirected one keeps all its tokens taken; commands of other channels keep their tokens; handlers are lost if and only if the state before meets the condition |
| `Replies.ReplyTable.Disconnect` | agent/tcf/framework/protocol.c:687-726 | the same when the channel is marked as disconnected first |
| `Replies.ReplyTable.ReplaceProtocol` | agent/tcf/framework/protocol.c:735-744 | a new protocol object restarts the token counter at 1 and changes no entry |
| `Replies.ReplyTable.Run` | agent/tcf/framework/protocol.c:687-720 | in every run each handler is called at most once, and on every disconnected channel exactly once (or it waits for its failure event, or was lost); one is lost if and only if the run meets the condition, given the state it starts in and its steps |
| `Cache.CacheManager.CacheWait` | agent/tcf/framework/cache.c:139-176 | only the first miss of a run suspends the transaction: with a copy of its arguments, made at most once, and one lock on its channel |
| `Cache.CacheManager.RunClient` | agent/tcf/framework/cache.c:90-113 | a run is opened and closed by exactly one pair of notifications with the arguments the transaction was entered with; afterwards it is suspended or finished, and committed only if finished; wait lists, locks and memory are those of the client's accesses taken one by one |
| `Cache.CacheManager.Close` | agent/tcf/framework/cache.c:106-109 | the arguments are freed exactly when the run had no miss; commit if and only if the client has exited |
| `Cache.CacheManager.CacheEnter` | agent/tcf/framework/cache.c:115-128 | a new transaction runs once, with its own arguments |
| `Cache.CacheManager.CacheExit` | agent/tcf/framework/cache.c:130-136 | exiting succeeds only without a miss |
| `Cache.Runs` | agent/tcf/framework/cache.c:90-176 | two runs written out: one that finds everything, and one that misses twice and is suspended at the first miss |
| `Cache.CacheManager.CacheNotify` | agent/tcf/framework/cache.c:178-196 | every transaction waiting for the cache is retried exactly once, in order, with its original arguments |
| `Cache.CacheManager.CacheNotifyLater` | agent/tcf/framework/cache.c:209-226 | the wait list becomes a posted notification as it is |
| `Cache.CacheManager.CacheNotifyEvent` | agent/tcf/framework/cache.c:198-207 | every transaction of the posted notification is retried exactly once, in order, with its original arguments |
| `Cache.CacheManager.Release` | agent/tcf/framework/cache.c:191-194 | the lock held for a retried transaction is released once, and was held until then |
| `Cache.OnePlace` | agent/tcf/framework/cache.c:90-226 | a transaction is suspended at exactly one place or has finished exactly once |
| `Cache.Pairs` | agent/tcf/framework/cache.c:90-113 | the notifications come in pairs, a start or retry and then the commit or abort of the same transaction |
| `Cache.LocksAndCopies` | agent/tcf/framework/cache.c:139-226 | the locks on a channel are as many as its suspended transactions; a copy of arguments is in memory exactly as long as one suspended transaction owns it |
| `Cache.CacheManager.Run` | agent/tcf/framework/cache.c:90-226 | in every run all of this holds between notifications, every start or retry has been closed by one commit or abort, and the state is that of the steps taken one by one |
| `WorkerPool.Pool.ReqPost` | agent/tcf/framework/asyncreq.c:602-620 | a request goes to the worker that has waited longest, which is woken; without one a worker is started by the dispatch thread, which makes a stopped pool run, or its start is deferred |
| `WorkerPool.Pool.AddDeferred` | agent/tcf/framework/asyncreq.c:541-559 | the deferred event starts a worker for the request |
| `WorkerPool.Pool.Complete` | agent/tcf/framework/asyncreq.c:519-529 | a completed request is posted once, the worker forgets it, and waits or leaves by the limit and the shutdown state |
| `WorkerPool.Pool.Resume` | agent/tcf/framework/asyncreq.c:530-537 | a woken worker waits on without a request, leaves when told to, executes otherwise |
| `WorkerPool.Pool.BeginShutdown` | agent/tcf/framework/shutdown.c:54-56 | the pending state is set before the mutex is taken; every promise holds in between |
| `WorkerPool.Pool.TriggerShutdown` | agent/tcf/framework/asyncreq.c:71-83 | every idle worker is told to leave and is woken; none is idle afterwards and none becomes so while the shutdown is pending |
| `WorkerPool.Pool.ExitEvent` | agent/tcf/framework/asyncreq.c:87-97 | the count of threads goes down with each exit, and the pool is stopped exactly at zero |
| `WorkerPool.Pool.Tick` | agent/tcf/framework/asyncreq.c:515-518 | the timer request never completes; its worker leaves on shutdown |
| `WorkerPool.NoLostWakeup` | agent/tcf/framework/asyncreq.c:515-559 | a request that is not completed waits for a worker to be started or is held by a worker that is awake; a completed one was completed once and no worker has it |
| `WorkerPool.OneWorker` | agent/tcf/framework/asyncreq.c:602-620 | no two workers have the same request |
| `WorkerPool.Pool.Run` | agent/tcf/framework/asyncreq.c:515-620 | in every interleaving, spurious wakeups included, the idle list is exactly the workers that wait, its counter its length and within the limit, and the promises above hold; the state is that of the steps taken one by one |
| `Redirect.Chain.ClientHello` | agent/tcf/framework/protocol.c:567-601 | the client sends its Hello and is connected if it had the other one |
| `Redirect.Chain.HelloDown` | agent/tcf/framework/protocol.c:608-660 | a Hello arrives only at an end that waits for one |
| `Redirect.Chain.ClientRedirect` | agent/tcf/framework/protocol.c:512-525 | a connected client sends a redirect command |
| `Redirect.Chain.RedirectAtServer` | agent/tcf/services/discovery.c:105-138 | a redirect command finds the channel connected; an unknown peer is refused at once |
| `Redirect.Chain.ConnectDone` | agent/tcf/services/discovery.c:77-99 | on success the server becomes a proxy whose host channel waits for the Hello of the target, and the reply is sent; on failure the channel is connected again |
| `Redirect.Chain.RedirectAtProxy` | agent/tcf/framework/proxy.c:103-147 | a relayed redirect command finds the target channel connected |
| `Redirect.Chain.HelloAtProxy` | agent/tcf/framework/proxy.c:149-188 | when the target completes its handshake the host channel waits for exactly that; its Hello is sent then |
| `Redirect.Chain.ReplyAtClient` | agent/tcf/framework/protocol.c:479-510 | the reply finds the client in the redirect state; granted, it waits for a Hello; refused, both ends are connected and nothing is on the way |
| `Redirect.Chain.ReplyAtProxy` | agent/tcf/framework/proxy.c:74-97 | the reply to a relayed redirect is passed on, after the host channel has gone back to waiting for the Hello of the target if it was granted |
| `Redirect.SeenInTime` | agent/tcf/framework/protocol.c:608-660 | the client side sees a Hello only while it waits for one, namely that of the target of its last granted redirect, and a reply only while it waits for that |
| `Redirect.CommandInTime` | agent/tcf/framework/protocol.c:219-231 | a redirect command is never refused for the state of the channel |
| `Redirect.HostWaits` | agent/tcf/framework/proxy.c:149-188 | the host channel is waiting whenever the target channel waits for its Hello |
| `Redirect.RefusalRestores` | agent/tcf/framework/protocol.c:499-505 | after a refused redirect both ends are connected and no message is on the way |
| `Redirect.BothHellos` | agent/tcf/framework/protocol.c:567-660 | an end is connected only when both Hellos of its handshake are accounted for: received, or the next message to an end that waits for it |
| `Redirect.AllConnected` | agent/tcf/framework/protocol.c:479-525 | no deadlock: a chain of any length at which nothing can happen any more is connected at every end |
| `Redirect.Chain.Run` | agent/tcf/framework/proxy.c:358-450 | every run, with any number of redirects through any number of proxies, keeps the invariant from which these follow, and leaves the chain of the steps taken one by one |
| `Redirect.Handshake` | agent/tcf/framework/protocol.c:567-660 | the Hellos of a client and a server cross, and both are connected then |
| `ProxyTokens.DownIs` | agent/tcf/framework/proxy.c:310-315 | the server reads one letter for each proxy and then the token of the command, as far as the buffer holds them |
| `ProxyTokens.NotOwn` | agent/tcf/framework/protocol.c:263-287 | a reply with the letter is passed on without it, whatever commands the proxy itself has outstanding |
| `ProxyTokens.Routed` | agent/tcf/framework/proxy.c:310-324 | what becomes of the reply to any command through any number of proxies: it is delivered with the part of the token that fits, or, with more proxies than the buffer has characters, is dropped or taken for another by a certain one |
| `ProxyTokens.RoundTrip` | agent/tcf/framework/proxy.c:310-324 | it comes back with the token of the command if and only if the token and a letter for each proxy fit the buffer |
| `ProxyTokens.CutOff` | agent/tcf/framework/protocol.c:97-109 | a token of 255 characters comes back from behind one proxy without its last character |
| `ProxyTokens.OwnReply` | agent/tcf/framework/protocol.c:263-287 | the reply to a command of a proxy itself comes back through any number of further proxies and is taken as its own |
| `ProxyTokens.Distinct` | agent/tcf/framework/proxy.c:310-315 | commands with different tokens have different tokens at every proxy and at the server |
| `ProxyTokens.Examples` | agent/tcf/framework/proxy.c:310-324 | the token 5 behind two proxies is RR5, and what a proxy does with such a reply, with one to its own command 5 and with another |
| `ProxyTokens.Numbers` | agent/tcf/framework/protocol.c:263-270 | which tokens count as numbers |
| `DoubleText.NoWrap` | agent/tcf/framework/mdep.c:1717-1720 | adding 5 never wraps: a significand of 2^63 or more is a multiple of 8 |
| `DoubleText.StepDown` | agent/tcf/framework/mdep.c:1699-1711 | one step for a negative exponent: exact unless it rounds, and then off by at most one part in 2^60; the significand stays positive and within 64 bits |
| `DoubleText.StepUp` | agent/tcf/framework/mdep.c:1712-1721 | one step for a positive exponent, likewise |
| `DoubleText.Scale` | agent/tcf/framework/mdep.c:1696-1722 | the loop ends for every finite non-zero double; the product is within as many units of n/2^59 as rounding steps were made, at most 1074; integers come out exactly |
| `DoubleText.Shorten` | agent/tcf/framework/mdep.c:1724-1727 | the significand comes down to 53 bits in at most four rounding steps |
| `DoubleText.Strip` | agent/tcf/framework/mdep.c:1729-1732 | trailing zeros move to the exponent, exactly |
| `DoubleConversion.ToDecimal` | agent/tcf/framework/mdep.c:1691-1732 | the decimal is within one part in 2^46 of the number, has no trailing zero, and is exact for integers below 2^53 |
| `DoubleConversion.Encoding` | agent/tcf/framework/mdep.c:1677-1684 | the fields of a double by its bits: a sign, eleven bits of exponent, fifty-two of fraction |
| `DoubleConversion.MagnitudeIs` | agent/tcf/framework/mdep.c:1680-1696 | what a finite double stands for, by its fields |
| `DoubleConversion.SpecialTexts` | agent/tcf/framework/mdep.c:1686-1694 | the texts of zeros, infinities and NaN, by their bits |
| `DoubleConversion.WholeBits` | agent/tcf/framework/mdep.c:1680-1696 | the bits of every integer up to 2^53 and of its negative encode it |
| `DoubleConversion.PrintWhole` | agent/tcf/framework/mdep.c:1669-1755 | from those bits a decimal equal to the integer is printed, with a minus exactly for the negative one |
| `DoubleFormat.Print` | agent/tcf/framework/mdep.c:1734-1754 | what is printed from right to left is the text of sign, significand and exponent, and fits the buffer |
| `DoubleFormat.TextExamples` | agent/tcf/framework/mdep.c:1734-1754 | texts written out |
| `DoubleConversion.DoubleToStr` | agent/tcf/framework/mdep.c:1669-1755 | NaN, infinities and zeros have their fixed texts; every other double prints such a decimal, after a minus exactly if the highest bit is set |
| `DoubleFormat.ParseDecimal` | agent/tcf/framework/mdep.c:1614-1649 | the number written is read as significand and exponent, cut to 18 significant digits and never to fewer; the significand fits 64 bits; the exact condition under which the exponent overflows an int |
| `DoubleFormat.GrammarExamples` | agent/tcf/framework/mdep.c:1614-1649 | a number with space, sign, point and exponent, and one that begins with a point, taken apart |
| `DoubleFormat.Characters` | agent/tcf/framework/mdep.c:1614-1649 | digits and whitespace by their codes |
| `DoubleFormat.BigExponent` | agent/tcf/framework/mdep.c:1636-1647 | a number whose exponent overflows |
| `DoubleFormat.GrammarOfText` | agent/tcf/framework/mdep.c:1614-1649 | a printed text has the sign, the digits and the exponent that were printed |
| `DoubleFormat.PrintAndParse` | agent/tcf/framework/mdep.c:1614-1649 | sign, significand and exponent are recovered from what was printed, and the exponent does not overflow |
| `DoubleConversion.ReadBack` | agent/tcf/framework/mdep.c:1604-1755 | reading back the text of a double gives its sign, negative exactly if the highest bit is set, and a decimal within one part in 2^46, the number itself for integers below 2^53; the exponent does not overflow |
| `Base64.EncodeLength` | agent/tcf/framework/base64.c:61-99 | the text has four characters for every three bytes begun |
| `Base64.EncodeConcat` | agent/tcf/framework/base64.c:61-99 | whole groups may be encoded separately |
| `Base64.ReadOfGroup` | agent/tcf/framework/base64.c:108-124 | the text of a group of one, two or three bytes decodes to those bytes |
| `Base64.Alphabet` | agent/tcf/framework/base64.c:29-38 | the 64 characters, in both directions |
| `Base64.GroupBits` | agent/tcf/framework/base64.c:64-88 | the four characters of three bytes are their 24 bits in order |
| `Base64.Examples` | agent/tcf/framework/base64.c:61-99 | the test vectors of section 10 of RFC 4648 |
| `BinaryStream.WriteBase64` | agent/tcf/framework/base64.c:61-99 | the encoder, with its buffer of 256 characters, writes exactly the encoding and returns its length |
| `BinaryStream.BinaryWriter.Data` | agent/tcf/framework/json.c:816-846 | data given in pieces of any length: whole groups have been written, the rest is kept |
| `BinaryStream.BinaryWriter.End` | agent/tcf/framework/json.c:848-857 | the text is the one-shot encoding of all data, in quotes |
| `BinaryStream.BinaryReader.ReadBase64` | agent/tcf/framework/base64.c:101-126 | the decoder delivers as many whole groups as fit and leaves the text at the next one |
| `BinaryStream.BinaryReader.Data` | agent/tcf/framework/json.c:703-755 | a buffer of any size gets as much of the data as there is, and what did not fit is kept for the next call |
| `BinaryStream.BinaryReader.End` | agent/tcf/framework/json.c:757-765 | the end is accepted exactly if everything has been read, and consumes the closing quote |
| `BinaryStream.WriteAndRead` | agent/tcf/framework/json.c:703-857 | any data, written in any pieces and read into buffers of any sizes, is read back; the text is the one-shot encoding and reading stops at the closing quote |
| `JsonObject.SkipLayout` | agent/tcf/framework/json.c:917-1016 | a value with any whitespace between its tokens is consumed exactly and copied without it |
| `JsonObject.ReadObject` | agent/tcf/framework/json.c:1018-1026 | the same, anywhere in a text |
| `JsonObject.ReadObjectAgain` | agent/tcf/framework/json.c:1018-1026 | applied to its own output it is the identity |
| `JsonObject.Characters` | agent/tcf/framework/json.c:946-964 | the characters of numbers and whitespace |
| `JsonObject.ScalarTexts` | agent/tcf/framework/json.c:917-984 | the texts of values that are not composed, and of empty arrays and objects |
| `JsonObject.ArrayText` | agent/tcf/framework/json.c:965-980 | the text of an array of two, with and without its whitespace |
| `JsonObject.ObjectText` | agent/tcf/framework/json.c:981-999 | the text of an object, with and without its whitespace |
| `JsonReader.ObjectReader.SkipObject` | agent/tcf/framework/json.c:917-1016 | the reader fails exactly where the function does and otherwise consumes and copies what it says |
| `JsonReader.ReadValue` | agent/tcf/framework/json.c:1018-1026 | the reader on a value laid out in any way: consumed exactly, copied without whitespace |
| `QueryMatch.MatchAttribute` | agent/tcf/services/contextquery.c:268-292 | the first comparator with the name, in any case of letters, decides; without one, any default comparator may |
| `QueryMatch.Names` | agent/tcf/services/contextquery.c:268-300 | names are compared without regard to case; which parts are a double star |
| `QueryMatch.MatchPart` | agent/tcf/services/contextquery.c:308-317 | a context satisfies a part if it satisfies all its conditions |
| `QueryMatch.SinglePart` | agent/tcf/services/contextquery.c:296-307 | a query of one part in the path language |
| `QueryMatch.ChildPart` | agent/tcf/services/contextquery.c:306-307 | P/x is one child of a match of P that satisfies x |
| `QueryMatch.BelowPart` | agent/tcf/services/contextquery.c:296-305 | P followed by a double star is any context at or below a match of P |
| `QueryMatch.Match` | agent/tcf/services/contextquery.c:294-318 | the recursive matcher decides the declarative path language, for every query and every context |
| `QueryMatch.RunQuery` | agent/tcf/services/contextquery.c:328-331 | so does running a query; the empty one matches everything |
| `QueryParse.ParseContextQuery` | agent/tcf/services/contextquery.c:207-266 | the parser ends on every text, each accepted turn of its loop consumes some of it, and it computes the function that the grammar characterises |
| `QueryParse.ParseQuoted` | agent/tcf/services/contextquery.c:121-145 | quoted strings, with their two escapes and their errors |
| `QueryParse.Characters` | agent/tcf/services/contextquery.c:66-119 | the characters of symbols, numbers and delimiters |
| `QueryParse.RoundTrip` | agent/tcf/services/contextquery.c:66-266 | every query, whatever its names and values contain, is read back from its text |
| `QueryGrammar.Accepts` | agent/tcf/services/contextquery.c:66-266 | a text is accepted if and only if it is the text of a syntax tree of the grammar: wildcards, bare and quoted words, numbers, and the separators allowed after each; all others are rejected |
| `QueryGrammar.ParsedAs` | agent/tcf/services/contextquery.c:66-266 | the text of a syntax tree is parsed to the meaning of the tree, so that the grammar is unambiguous in meaning |
| `QueryGrammar.TreeOf` | agent/tcf/services/contextquery.c:66-266 | every accepted text has a tree, and its meaning is the result |
| `QueryGrammar.SampleTree` | agent/tcf/services/contextquery.c:207-266 | a tree with its text and its meaning written out |
| `QueryGrammar.Quotes` | agent/tcf/services/contextquery.c:121-145 | quoted words written out |
| `LocationBits.SwapBytes` | agent/tcf/framework/mdep.c:588-597 | the bytes of a buffer are reversed in place |
| `LocationBits.ReversedTwice` | agent/tcf/framework/mdep.c:588-597 | reversing twice is the identity |
| `LocationBits.SetThenGet` | agent/tcf/framework/cpudefs.c:488-488 | setting a bit, in either bit order, changes that bit and no other |
| `LocationBits.SaveBit` | agent/tcf/framework/cpudefs.c:618-632 | writing a buffer back to memory or to a register of either byte order puts its bits where the bits of the piece are and changes nothing else |
| `LocationBits.SaveLoaded` | agent/tcf/framework/cpudefs.c:583-632 | writing the buffer of a piece back as it was read changes nothing, also for registers of the other byte order or narrower than the piece |
| `LocationPieces.LoadPiece` | agent/tcf/framework/cpudefs.c:509-543 | the buffer of a piece: the register in the byte order of the value, padded if it is narrower, or the memory, or the constant; or the error |
| `LocationPieces.ReadPieces` | agent/tcf/framework/cpudefs.c:490-552 | bit k of the pieces, taken in order, is bit k of the buffer in little-endian order; in big-endian order they end at its last bit; all other bits are zero; it fails exactly if a piece cannot be read |
| `LocationPieces.WritePieces` | agent/tcf/framework/cpudefs.c:554-634 | the bits of a value of any size are set piece by piece, from its first bit in little-endian order and, in big-endian order, so that they end at its last bit, or from its first bit if it is too short for the pieces; bits beyond its end are left; the storage it leaves, also when a piece cannot be written |
| `LocationPieces.ReachedStops` | agent/tcf/framework/cpudefs.c:571-633 | when a piece cannot be written, those before it have been set from their bits and nothing after it has |
| `LocationPieces.ScatterCell` | agent/tcf/framework/cpudefs.c:554-634 | writing disjoint pieces sets each of their bits to its bit of the value and changes no other bit of memory or registers |
| `LocationPieces.RoundTrip` | agent/tcf/framework/cpudefs.c:488-634 | what is written to disjoint pieces is gathered from them again |
| `LocationPieces.WriteThenRead` | agent/tcf/framework/cpudefs.c:488-634 | a value of the exact size, written and read back: every covered bit, counted from the first one in little-endian order and from the last one in big-endian order, is the one of the value, padding is zero, no other bit has changed |
| `LocationExamples.ReadTwelve` | agent/tcf/framework/cpudefs.c:490-552 | twelve bits over the bytes AB C0 read as 0A BC in big-endian order and as AB 00 in little-endian order |
| `LocationExamples.BitOrder` | agent/tcf/framework/cpudefs.c:488-488 | which bit of which byte each position of a buffer is |
| `LocationExamples.Registers` | agent/tcf/framework/cpudefs.c:509-543 | the buffer of a register by its byte order and that of the value, also if it is narrower than its piece |
| `LocationExamples.Sizes` | agent/tcf/framework/cpudefs.c:509-510 | the sizes of a piece in bytes and in bits, given or computed |
| `TempPool.Allocator.TmpAlloc` | agent/tcf/framework/myalloc.c:83-115 | the block is aligned, lies in its pool and overlaps no other block, header or link; all other blocks keep place and contents |
| `TempPool.Allocator.Retire` | agent/tcf/framework/myalloc.c:92-101 | the full pool goes to the retired ones, which stay, and the new one has room for the block |
| `TempPool.Allocator.TmpRealloc` | agent/tcf/framework/myalloc.c:121-141 | the block begins with the old contents, in place or moved; all other blocks keep place and contents |
| `TempPool.Allocator.TmpGc` | agent/tcf/framework/myalloc.c:55-81 | every retired pool is freed, no pool is freed twice, none is given up without being freed, and only the current one is left, of the size that the average use calls for |
| `TempPool.NextSizeIs` | agent/tcf/framework/myalloc.c:57-73 | the pool grows only when it was too small, to what is needed within the limit, and is halved only when it is more than four times as large; the average that decides |
| `TempPool.Allocator.EachPoolOnce` | agent/tcf/framework/myalloc.c:55-115 | every pool that was ever allocated is the current one, or retired, or freed: one of them, and once |
| `TempPool.Allocator.Run` | agent/tcf/framework/myalloc.c:55-141 | over every mix of allocations, changes of size, writes and collections each block reads as an array of its own, which only its client has written, through every move and growth; every pool ever allocated is current, retired or freed, once |
| `TempPool.Grow` | agent/tcf/framework/myalloc.c:129-136 | growing the last block in place keeps all blocks apart and their contents |
| `TempPool.Cut` | agent/tcf/framework/myalloc.c:102-107 | a block cut behind all others keeps them apart, headers included, and their contents |

## Left out

- InputRing: a read that reports the synthetic end of stream leaves the end of the window behind; nothing is claimed about a channel after that, nor about flushing and closing it.
- InputRing and ChannelOutput: escape codes above 3 are treated as the end of the stream; length fields of 2^31 and more, where the shift of a C int overflows, are unbounded numbers here.
- ChannelOutput: sockets, SSL, splice and the choice of the buffer size by platform; the buffer size is a parameter between 64 and 2^21.
- OutputQueue: buffers are values with identities and not arrays in memory.
- Events: the exit event (agent/tcf/framework/events.c:354-378) and the call of the exception handler around an event handler.
- Events: memory nodes are keys of a map from addresses to cells, and times are nanoseconds.
- WorkerPool: the system calls of the request types, and requests handed to the operating system's asynchronous I/O.
- WorkerPool: the timer request is a kind of request and not an object of its own.
- Cache: listeners do nothing; notification from inside a running client is excluded, as the code requires; transaction numbers do not wrap.
- Replies: message bodies; callbacks may send commands on any channel but do not close channels from inside the sweep; running out of memory for command records ends the source program and is a command that is not sent here.
- Redirect: channels that close in the middle of a redirect, zero-copy negotiation, service lists, and messages other than Hello, redirect and its reply.
- ProxyTokens: the copying of message bodies, and commands that a proxy answers itself.
- DoubleFormat.ParseDecimal: what the source computes after an overflow of its int, and the final multiplication or division in floating point.
- Base64 and BinaryStream: the form of binary data with a byte count in front, used with zero copy.
- JsonObject.SkipLayout: the form `(n)` of binary data inside a value, whose digits the source does not copy; the model rejects it.
- JsonString: a string pointer that is null is written as `null`, which is not modelled.
- QueryParse: growth of the buffer for names, and texts of error messages.
- QueryMatch: a context is its path from the root, so its chain of parents is finite.
- LocationPieces: evaluation of location expressions, reading and writing of single register values, and pieces that reach beyond the end of their buffer, which the source does not check for.
- TempPool: sizes do not overflow, memory cells hold numbers with the whole size in the first cell of a header, and the variant without pools is not modelled.
- Numbers, arrays and structures in JSON, peers, services, signals, error reports, tracing, plugins and command lines: they would only add easy members.
