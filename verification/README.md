# Verified model of ratnet's message pipeline

ratnet is a store-and-forward, flood-routed message bus. This project models the pipeline around its RAM node and
proves what it guarantees end to end: the wire format, chunking and reassembly, the loop-prevention cache, message
envelopes and routing, the outbox with its paged pickup, the push/pull exchange with a peer, and the polling
policy's rounds.

The files fall into pairs. The operations are written as the Go code runs them, as classes and methods with loops:
`Wire` (buffers, `Serialize`, `Deserialize`, `ReadBuffer`, `WriteBuffer`), `Outbox` (the slice over its backing
array), `RecentBuffer` (the two maps), `Node` (the RAM node), `Polling` (the peer table), `Scheduler` (the round
loop). Each method's contract equates its effect with a function of the old state; those functions are in `Varint`,
`Codec`, `Remote`, `OutboxSpec`, `Envelope`, `Chunking`, `Reassembly`, `NodeSpec`, `PollingSpec` and `Scheduler`.
What the system promises is proved about the functions, mostly over whole runs, in `CodecProofs`, `OutboxSpec`,
`RecentBuffer`, `ReassemblyProofs`, `RouteProofs`, `NodeProofs`, `Delivery`, `NodeRuns`, `Meetings`, `Hearing`,
`Echoes`, `EndToEnd`, `Routing`, `Flood`, `PollingProofs` and `SchedulerProofs`. `EndToEnd` puts them together: a
message sent at one node comes out at another, over any run of `PollServer` between the two, with bundles going both
ways, calls failing, echoes coming back, and both nodes doing other things in between.

## How the surroundings enter the model

- Go strings and byte slices are sequences of bytes; a nil slice and an empty one are the same.
- The cipher, CRC-32, the clock and the random source are functions in a node's `Config`; the clock, the random
  source and the cipher's randomness are asked with a tick that every queued record advances. Properties that need
  more say so: decryption inverts encryption (`CipherPair`, `Readable`), the cipher adds at most a given number of
  bytes (`Overhead`), a cipher text is not empty (`CipherNonEmpty`).
- The order in which Go ranges over a map is an input (`ReassembleAll`) or an arbitrary choice (`SortedCounters`).
- The results of RPCs are inputs of a poll, so any call may fail in any run.
- Everything done under one lock is one step; concurrency is any interleaving of steps.
- Where Go would panic the result says so: `Crash`, `HandleCrashed`, `RouteCrashed`, `DropoffCrashed`, `Broken`,
  `DivideByZero`, `WrongType` (a failed type assertion). An allocation too large for memory is `EndOfInput`.
- `encoding/binary` and `bytes` behave as in current Go releases.

## Where the code differs from what it is meant to do

- `Flush` deletes while it ranges over the slice it shifts. It keeps every message above the cutoff exactly unless
  the last message and an earlier one are old (`FlushKeepsYoungIff`, `FlushLosesYoungMessage`), and on a
  time-ordered queue it leaves every second old message (`FlushOrdered`).
- `MsgsSince` skips messages of equal time at a page cut (`ResumesExactlyIff`, `EqualTimesSkipMessage`), and on a
  queue out of time order it may return a message again (`OutOfOrderRepeats`); `ResumesIff` says exactly when neither
  happens, for any queue.
- The first bundle a peer accepts does not advance the push cursor, so the second accepted bundle begins with all of
  it again (`RepeatsAreFirstTwo`). The receiver ignores it until 3072 other new messages came in (`HeardAgain`).
- With the content key and profiles both checked and a profile enabled, `Route` hands a private message to `Handle`
  twice, so a whole one comes out twice (`WholeMessageTwice`); `WholeMessageOnceIff` says exactly when it comes out
  once.
- `Route` guards 16 bytes of content and then slices 32, and slices names without a guard; a fragment that decrypts to
  fewer than 8 bytes is sliced too. `Dropoff` lets such messages pass, and the panic ends its loop
  (`ShortMessagePanics`). `OpenCrashIff`, `RouteOutcomeIff` and `RouteAllIff` say exactly which messages do this.
- The channel name length is big-endian although the comment says little-endian, and names over 65532 bytes break
  the header (`ContentSurvivesIff`); undefined flag bits are dropped (`ResealIsIdentityIff`).

## Model

| member | source | states |
|---|---|---|
| Varint.UvarintRoundTrip | api/remoting.go:629-634 | every 64-bit length is read back, with what follows it untouched |
| Varint.UvarintTooLarge | api/remoting.go:636-640 | a number of more than 64 bits is refused, never misread |
| Varint.LVRoundTrip | api/remoting.go:629-649 | a length-prefixed value is read back and leaves exactly the suffix |
| Varint.ReadLVIff | api/remoting.go:636-649 | a value and a rest are read exactly if the value's length stands in front of both |
| Varint.LVCut | api/remoting.go:636-649 | a length-prefixed value cut off anywhere is the end of the input, never a shorter value |
| Varint.UvarintErrorIff | api/remoting.go:352-357 | a count in a slice is too short exactly if up to ten bytes all announce another, else it overflows |
| Varint.UvarintBytes | api/remoting.go:629-634 | a length goes out in groups of seven bits, lowest first, all but the last marked |
| CodecProofs.RoundTrip | api/remoting.go:167-310 | for every supported value, nested arrays included, and every suffix, decoding the encoding gives the value and leaves the suffix |
| CodecProofs.ManyValuesRoundTrip | api/remoting.go:192-200 | the same for the elements of an array, one after the other |
| CodecProofs.RecordRoundTrip | api/remoting.go:214-304 | a contact, channel, profile or peer record is read back field by field |
| CodecProofs.PrefixFree | api/remoting.go:313-620 | two streams that agree and start with encodings start with the same value: encodings are injective and prefix-free |
| CodecProofs.TypeBytes | api/remoting.go:17-42 | the byte each kind of value starts with, as a number |
| CodecProofs.IntegerBytes | api/remoting.go:171-179 | integers are eight bytes, most significant first, negative ones in two's complement |
| CodecProofs.CutRefused | api/remoting.go:313-348 | a value cut off anywhere is refused as the end of the input |
| CodecProofs.UnknownTypeRefused | api/remoting.go:337-620 | any other type byte is refused, after its length and value are read |
| CodecProofs.EnabledByte | api/remoting.go:400-620 | an Enabled byte reads as true if it is 1 and as false otherwise |
| CodecProofs.DecodeWork | api/remoting.go:313-383 | on every input the decoded value is well-formed and has at most as many nodes as bytes were taken, whatever counts the input claims |
| Codec.Decode | api/remoting.go:313-348 | total on every byte string; takes at least one byte when it succeeds and leaves no more than it was given |
| Wire.Serialize | api/remoting.go:167-310 | the recursive serializer over nested buffers appends exactly the encoding |
| Wire.Deserialize | api/remoting.go:313-348 | the reader-based parser returns what the parsing function says, stands at the rest of the input, and never passes its end |
| Wire.DeserializeBody | api/remoting.go:344-620 | the same for values with a length, each nested value read by a reader of its own |
| Wire.ReadArray | api/remoting.go:367-383 | the element loop reads the counted values in order or returns the first error |
| Wire.WriteBuffer | api/remoting.go:679-688 | one frame is appended: length and bytes |
| Wire.ReadBuffer | api/remoting.go:654-677 | consumes exactly one frame, as `ReadLVIff` says, or fails; a cut frame fails (`LVCut`) |
| CodecProofs.LVsRoundTrip | api/remoting.go:654-688 | any sequence of frames is recovered in order, each read taking exactly one |
| Remote.CallRoundTrip | api/remoting.go:91-115 | a remote call survives encoding |
| Remote.ResponseRoundTrip | api/remoting.go:118-146 | a remote response survives encoding |
| Remote.BytesBytesRoundTrip | api/remoting.go:149-165 | a batch of messages survives encoding |
| Remote.CallStream | api/remoting.go:91-115 | calls framed onto one stream are all recovered, in order, leaving what follows |
| Remote.CallOfAnyValue | api/remoting.go:99-115 | any value behind an action: an array is the arguments, nil is none, anything else fails the type assertion; fewer than two bytes are too short |
| Remote.OtherValuesFail | api/remoting.go:126-165 | a response not beginning with a string, and a batch that is no array of byte strings, fail the type assertion |
| Remote.CutCallRefused | api/remoting.go:91-115 | a call cut off anywhere is refused |
| Remote.CutResponseRefused | api/remoting.go:118-146 | so is a response |
| Remote.CutBatchRefused | api/remoting.go:149-165 | and a batch of messages |
| Outbox.OutboxQueue.Append | nodes/ram/outbox.go:27-31 | the message goes to the end of the queue and nothing else changes |
| Outbox.OutboxQueue.Flush | nodes/ram/outbox.go:46-59 | the loop over the shifting backing array leaves exactly what one pass deletes, or nothing after the reset; the cutoff is so many seconds of 10^9 ns ago |
| Outbox.OutboxQueue.MsgsSince | nodes/ram/outbox.go:62-98 | returns the payloads of one page and its time, and raises the oversize event exactly if wanted messages are left but the page holds no byte |
| OutboxSpec.FlushKeepsYoungIff | nodes/ram/outbox.go:46-59 | messages at or above the cutoff are kept, in order, exactly unless the last message is old, an earlier one is old too, and a young one exists |
| OutboxSpec.YoungParts | nodes/ram/outbox.go:46-59 | what is to be kept is each message whose time is at least the cutoff, in order |
| OutboxSpec.FlushLosesYoungMessage | nodes/ram/outbox.go:46-59 | a three-message queue out of time order loses its young message |
| OutboxSpec.FlushOrdered | nodes/ram/outbox.go:46-59 | on a time-ordered queue: empty if all are old, else every second old message and all young ones stay |
| OutboxSpec.OddOnesAt | nodes/ram/outbox.go:49-57 | the old messages that stay are the second, the fourth and so on |
| OutboxSpec.FlushConverges | nodes/ram/outbox.go:46-59 | k flushes with one cutoff leave the young messages and the old ones that survive k halvings |
| OutboxSpec.SurvivorsCount | nodes/ram/outbox.go:46-59 | after k halvings floor(j / 2^k) of j old messages are left |
| OutboxSpec.FlushConvergesToFilter | nodes/ram/outbox.go:46-59 | k flushes equal the exact filter once 2^k exceeds the number of old messages |
| OutboxSpec.PageIsMaximal | nodes/ram/outbox.go:78-93 | a page is the longest prefix of the wanted messages that stays within the limit |
| OutboxSpec.NewerParts | nodes/ram/outbox.go:62-84 | wanted is each message later than the cursor on a named channel, or on any if none is named, in order |
| OutboxSpec.PageAdvances | nodes/ram/outbox.go:62-98 | a non-empty page moves the cursor and leaves fewer messages, in any queue, so paging ends |
| OutboxSpec.ResumesIff | nodes/ram/outbox.go:66-93 | in any queue the next page starts right behind a page exactly if no message of the page is later than the time it returns and every message behind it is |
| OutboxSpec.ResumesExactlyIff | nodes/ram/outbox.go:66-93 | in time order that is so exactly if the cut does not separate equal times |
| OutboxSpec.OutOfOrderRepeats | nodes/ram/outbox.go:66-93 | two messages out of time order: the first is fetched a second time |
| OutboxSpec.PagesExact | nodes/ram/outbox.go:62-98 | with increasing times the pages together are the newer messages on the channels, in order and once each, up to the first that cannot fit |
| OutboxSpec.PagesCompleteIff | nodes/ram/outbox.go:85-90 | with increasing times paging delivers all newer messages exactly if each of them fits the limit |
| OutboxSpec.PagesCompleteInOrderIff | nodes/ram/outbox.go:62-98 | with times that never decrease exactly if, besides, no cut of the paging sequence separates equal times |
| OutboxSpec.EqualTimesSkipMessage | nodes/ram/outbox.go:66-93 | two messages of one time cut apart: the second is never fetched |
| RecentBuffer.RecentBuffer.SeenRecently | router/default.go:36-67 | the two inverse maps with contiguous live counters implement one step of a first-in first-out window |
| RecentBuffer.RecentBuffer.CollectGarbage | router/default.go:51-65 | eviction happens at size 4096 only and removes precisely the 1024 oldest; the size stays below 4096 |
| RecentBuffer.RecentBuffer.SortedCounters | router/default.go:54-58 | the sorted live counters are the interval that ends just below the counter |
| RecentBuffer.LoopPrevention | router/default.go:36-67 | between two "not seen" answers for one hash at least 3072 other hashes were inserted |
| RecentBuffer.LoopPreventionTight | router/default.go:14-18 | a run with exactly 3072 in between |
| RecentBuffer.Remembers4095 | router/default.go:14-18 | after 4095 new hashes all are seen; the next new one makes the cache forget the 1024 oldest |
| RecentBuffer.Inserted | router/default.go:36-50 | each window entry was inserted by an arrival after which exactly the later entries were |
| RecentBuffer.SeenIff | router/default.go:41-66 | "seen" is answered exactly for a hash inserted before that is still in the window |
| Envelope.OpenSeal | router/default.go:156-179 | Route's header parse recovers what Forward sealed, with the content's first 32 bytes as nonce |
| Envelope.HeaderBytes | nodes/ram/internal.go:24-44 | the header byte by byte: 1 for a stream header, 2 for chunked, 4 for a channel with a big-endian name length and the name |
| Envelope.ContentSurvivesIff | router/default.go:162-171 | the content survives the uint16 header arithmetic exactly for names of at most 65532 bytes |
| Envelope.ResealIsIdentityIff | nodes/ram/internal.go:24-44 | re-emitting a parsed message gives the same bytes exactly if only the three defined flags are set |
| Envelope.UnpatchedIsIdentityIff | router/default.go:129-150 | so does forwarding without a matching patch |
| Envelope.RedirectPatched | router/default.go:129-144 | the first matching patch sends one copy to each of its targets, as a private message if the target is empty |
| Envelope.RedirectBounds | router/default.go:129-150 | a message is forwarded at most fan-out times, under names that parse again |
| Envelope.HopKeepsContent | router/default.go:129-150 | one hop through patches keeps content, nonce and chunk flags |
| RouteProofs.OpenCrashIff | router/default.go:156-172 | the header parse panics exactly on an empty message, a channel header cut short, a name of more than 65532 bytes, and a content of 17 to 31 bytes |
| RouteProofs.ShortMessagePanics | nodes/ram/public.go:33-42 | twenty zero bytes pass Dropoff's filter and make its loop end in a panic |
| RouteProofs.RouteOutcomeIff | router/default.go:153-240 | Route panics exactly if the header parse does, or the message is new and a fragment for a tried key with a clear text under 8 bytes; it errs exactly on malformed messages and failing decryptions; the hash enters the window |
| RouteProofs.RouteKeeps | router/default.go:172-240 | what routing any bytes does to storage and Out: a new message that a tried key reads is stored as a fragment, or offered to Out once for each check that reads it; nothing else changes them |
| RouteProofs.RouteQueues | router/default.go:129-240 | what routing any bytes queues, for all settings, profiles and patches: of a new message that neither errs nor panics one record for each copy the patches make, exactly under the flag for its kind read or not read; else nothing |
| RouteProofs.RecordsAt | nodes/ram/internal.go:24-55 | each record's channel, bytes and time |
| RouteProofs.RouteHops | router/default.go:129-240 | every record that Route queues is one hop from the message routed, which had a new hash |
| RouteProofs.RoutedPathKeepsContent | router/default.go:129-240 | over any chain of nodes, each routing what the one before it queued, content and nonce stay the same |
| Chunking.ChunkSize | api/chunking/chunking.go:15-29 | the running minimum over the transports, with uint32 truncation and wrap-around |
| Chunking.MinLimit | api/chunking/chunking.go:16-23 | a lower bound of 64 KiB and all truncated limits, and one of them |
| Chunking.PiecesPartition | api/chunking/chunking.go:55-70 | the pieces joined are the message |
| Chunking.PiecesFrom | api/chunking/chunking.go:55-66 | the pieces from number i on are those of what the loop has left at offset i times the size |
| Chunking.PiecesCount | api/chunking/chunking.go:37-42 | their number is the length over the size, rounded up |
| Chunking.FragmentsCount | api/chunking/chunking.go:37-72 | a stream is one header and that many chunks |
| Chunking.FragmentsFit | api/chunking/chunking.go:45-71 | no fragment exceeds the chunk size |
| Chunking.FragmentsFill | api/chunking/chunking.go:45-71 | a header is eight bytes, each chunk but the last fills the chunk size, eight bytes of it its id and number |
| Chunking.ChunkSizeIs | api/chunking/chunking.go:15-29 | the least limit, at most 65536, less 132, wrapping as uint32 |
| Reassembly.FragmentHandled | api/chunking/chunking.go:76-102 | HandleChunked takes a fragment apart into the stream id, number and data it was made of |
| Reassembly.StoredInPlace | nodes/ram/internal.go:104-130 | a header or chunk replaces what is stored in its place and nothing else |
| ReassemblyProofs.CountIsCompleteIff | nodes/ram/admin.go:421-427 | with all numbers below n, having n chunks is having every chunk |
| ReassemblyProofs.VisitHonest | nodes/ram/admin.go:419-454 | from honest storage the "code broken" branch is unreachable and a delivery is the original content |
| ReassemblyProofs.DeliveredIsOriginal | nodes/ram/admin.go:410-455 | in every run - any arrival order, repetition, interleaving, pass order, whole messages in between - the receiver never panics and delivers only original contents |
| ReassemblyProofs.OutIsAccountedFor | nodes/ram/admin.go:410-455 | everything on Out is the original content of a stream or a message that came whole |
| ReassemblyProofs.DeliveredAtMostOncePerHeader | nodes/ram/admin.go:444-451 | a stream is delivered at most once for each arrival of its header |
| ReassemblyProofs.DeliveredAtMostOncePerFragment | nodes/ram/admin.go:444-451 | a stream is delivered at most once for each arrival of any one of its fragments, header or chunk, so nothing is left to complete it again |
| ReassemblyProofs.CompleteIffAllStored | nodes/ram/admin.go:421-427 | the counting test succeeds exactly when header and all chunks are stored |
| ReassemblyProofs.PassDelivers | nodes/ram/admin.go:419-454 | a pass delivers a complete stream unless Out is full |
| ReassemblyProofs.PassOutBound | nodes/ram/admin.go:435-443 | a pass never fills Out beyond 128 |
| ReassemblyProofs.AllArrivedThenDelivered | nodes/ram/internal.go:104-130 | once every fragment arrived since the last delivery, the next pass delivers the stream unless Out is full |
| Node.Node.Forward | nodes/ram/internal.go:24-55 | queues the message behind a new header |
| Node.Node.Handle | nodes/ram/internal.go:59-101 | decrypts with the channel's or content key, then stores the fragment or offers the message to Out |
| Node.Node.HandleChunked | api/chunking/chunking.go:76-102 | stores a header or a chunk; fewer than 8 bytes count as a panic |
| Node.Node.AddStream | nodes/ram/internal.go:104-114 | the header is stored under its stream id |
| Node.Node.AddChunk | nodes/ram/internal.go:117-130 | the chunk is stored under its stream id and number, the others stay |
| Node.Node.ReassembleAll | nodes/ram/admin.go:410-455 | the loop over the streams does what the pass says, clearing header and chunks of what it delivers, or meets a missing chunk |
| Node.Node.ForwardPatched | router/default.go:129-150 | the first matching patch decides where copies go |
| Node.Node.Route | router/default.go:153-240 | parse, loop prevention, handling and forwarding as one step on the node's whole state |
| Node.Node.SendMsg | nodes/ram/admin.go:315-361 | the mutual recursion with SendChunked ends and queues what the sending function says |
| Node.Node.SendChunked | api/chunking/chunking.go:32-73 | sends the header and the chunks, stopping at the first error |
| Node.Node.SendChunks | api/chunking/chunking.go:55-70 | the loop sends every piece in order |
| Node.WholeSlice | api/chunking/chunking.go:55-58 | the uint32 slice bounds of a chunk do not wrap and cut out its piece |
| Node.LastSlice | api/chunking/chunking.go:63-66 | the slice behind the whole chunks is the last piece |
| Node.Node.Pickup | nodes/ram/public.go:49-69 | encrypts one page, or returns an empty bundle with the page's time |
| Node.Node.Dropoff | nodes/ram/public.go:17-46 | decrypts, decodes and routes each message of 16 bytes or more |
| NodeProofs.SendMsgFits | nodes/ram/admin.go:315-361 | with usable limits a local message never meets "already chunked" or a division by zero, becomes one record or one header and ceil(L / (chunkSize - 8)) chunks, and each record fits every transport |
| NodeProofs.SendKeepsFetchable | nodes/ram/outbox.go:83-90 | so no record that SendMsg queues can raise the oversize event |
| Delivery.PickupThenDropoff | nodes/ram/public.go:17-69 | dropping off a picked-up bundle hands the router its messages of at least 16 bytes, in order |
| Delivery.DropoffIff | nodes/ram/public.go:17-46 | any bundle is acknowledged exactly if the node has its key, it decodes to a batch, and no message of 16 bytes or more panics at its turn; refused, with nothing changed, exactly without the key or a decodable value; else it panics |
| Delivery.RoutableParts | nodes/ram/public.go:33-36 | messages of at least 16 bytes are routed, in order, shorter ones are not |
| Delivery.RouteAllIff | nodes/ram/public.go:33-42 | every message is routed whatever errors others meet, exactly if none is, at its turn, one of those that panic by their bytes, the window so far and the node's keys |
| Delivery.RouteAllCrash | nodes/ram/public.go:33-42 | a panic leaves what was routed up to the first message that panics |
| Delivery.FragmentRouted | router/default.go:172-194 | routing a fragment's record stores it if its nonce is new and otherwise changes nothing stored |
| Delivery.SentFragmentArrives | api/chunking/chunking.go:45-71 | what SendMsg's fragment does to the receiver is the arrival of that fragment of the stream |
| Delivery.SendMsgQueues | nodes/ram/admin.go:315-361 | a sent message is queued as itself or as the fragments of one stream, in order, each encrypted for the key, sealed, and stamped with the clock at its own tick |
| Delivery.SendMsgOutcome | nodes/ram/admin.go:315-361 | how sending ends for any message, limits and failures: sent, refused as a chunk too long, divided by zero, out of random bytes, or stopped by the cipher |
| Delivery.SendFragmentsOutcome | api/chunking/chunking.go:45-71 | fragments are queued up to the first that the cipher fails on |
| Delivery.SentRecordCarries | api/chunking/chunking.go:45-71 | at a receiver whose router tries the key, the record of fragment k carries fragment k of that stream, and nothing else |
| Delivery.CarriedRouted | router/default.go:172-194 | routing a record that carries a fragment never panics and is that fragment's arrival, if its nonce is new |
| NodeRuns.NodeRefinesReceiver | nodes/ram/internal.go:59-130 | a node's run - hearing any bytes in any order and again, if only the fragments it stores are honest, with passes, reads, sends and flushes - is a run of the receiver with the same storage and the same deliveries |
| NodeRuns.NodeDeliversOriginal | nodes/ram/admin.go:410-455 | so in every such run all a node delivers is original content, at most once for each time any one of the stream's fragments came in under a new nonce, and all else on Out came whole |
| NodeRuns.HeardAgain | router/default.go:36-67 | a node takes a message for new again only after 3072 others of new hashes |
| NodeRuns.AllTakenThenDelivered | nodes/ram/admin.go:410-455 | once a node stored every fragment since the last delivery, whatever else it heard, its next pass delivers the stream, or finds Out full |
| Meetings.MeetEffect | policy/common.go:33-105 | a poll either leaves the other node and the push cursor alone, or makes that node route the page behind the cursor, which then stays or moves to the page's time, whatever calls fail |
| Meetings.DonePollsPass | policy/common.go:84-104 | of n new messages that fit, each poll reported done but the first brings the cursor past one more; after n + 1 it has passed all |
| Meetings.WorkingIsDone | policy/common.go:33-105 | a poll in which no call fails, each node reading and routing what the other holds for it, pushes and pulls both pages and is reported done |
| Hearing.WorldHeard | policy/common.go:33-105 | in any run of polls in both directions, each new record at or below the cursor was routed by the other node under its new nonce |
| Echoes.UnpatchedRelays | router/default.go:129-150 | a router without patches queues exact copies only |
| Echoes.EchoesAreHonest | router/default.go:129-240 | between unpatched nodes whose queues hold honest messages behind the cursors, all that goes to and fro stays honest |
| EndToEnd.SentThenDelivered | nodes/ram/admin.go:315-361 | a message sent in chunks: when the push cursor has passed its records, in any run of polls after any run of the receiver, the receiver has delivered it or its next pass does, once and unchanged, or finds Out full |
| EndToEnd.WholeSentThenReceived | nodes/ram/admin.go:315-361 | a message sent whole under a new hash: when the cursor has passed it, the receiver has offered it to Out, while Out has room as often as its checks read it, and pushes of it again change nothing until 3072 other new messages came in |
| EndToEnd.DonePollsPassRecords | nodes/ram/admin.go:315-361 | with usable limits, one done poll more than there are records brings the cursor past them all |
| EndToEnd.WorkingMeetsPassRecords | policy/common.go:33-105 | so do one more such polls than there are records |
| Routing.ChannelMessageIsRelayed | router/default.go:69-71 | by default a new channel message goes out unchanged on its channel exactly unless its decryption fails or gives too short a fragment; what is stored is what Handle stores |
| Routing.PrivateMessageIsConsumedOrRelayed | router/default.go:200-237 | by default a new private message goes out unchanged exactly if it decrypts without error as not for this node |
| Routing.ProfilesConsumeIff | router/default.go:209-229 | the profile loop reads a private message exactly if a profile is enabled, and gives it the name of an enabled one |
| Routing.ProfileMessageForwardedIff | router/default.go:211-238 | with profiles checked instead, a private message is not forwarded exactly if a profile is enabled and reads it or fails to |
| Routing.WholeMessageOut | nodes/ram/internal.go:59-101 | a new message sent whole is offered to Out in the clear, once for each check of the router that reads it; a seen one changes nothing |
| Routing.WholeMessageOnceIff | router/default.go:200-229 | it comes out exactly once exactly if Out has room for one only, or for more and it is a channel message or just one of CheckContent and CheckProfiles with an enabled profile is on |
| Routing.WholeMessageTwice | router/default.go:200-229 | with both on, a private message comes out twice |
| Routing.WholeMessageDelivered | nodes/ram/internal.go:59-101 | under the default settings, or any without CheckProfiles, a new message sent whole comes out in the clear once, if Out has room |
| Flood.RouteEffect | router/default.go:153-240 | a message is spread only if its hash is new, at most fan-out times, with its nonce, and the hash then enters the window |
| Flood.FloodTerminates | router/default.go:129-240 | over any patches, arrivals and flushes, while fewer than 3072 other new hashes reach each node, no node routes a message past its loop check twice and N nodes queue it at most 1 + N * fan times |
| Polling.PeerTable.PollServer | policy/common.go:33-105 | only the host's entry changes, to what the exchange makes of it |
| Polling.PeerTable.Exchanged | policy/common.go:43-104 | the push/pull steps in order, with every early return |
| PollingProofs.PollDoneIff | policy/common.go:43-104 | a poll is done exactly if the key is known or given, both Pickups succeed, and so does the Dropoff of each bundle that is not empty |
| PollingProofs.PollFailedIff | policy/common.go:43-104 | it reports an error exactly if a call it comes to returns one |
| PollingProofs.PollTransfers | policy/common.go:57-104 | for any results of the calls: which bundles go over, both cursors, both totals and the key |
| PollingProofs.PageCovers | nodes/ram/outbox.go:62-98 | a page holds every message between the cursor and the time it returns |
| PollingProofs.CursorsAreSafe | policy/common.go:57-103 | in every run no queued message at or below a cursor was missing from every bundle its receiver took |
| PollingProofs.CursorsNeverDecrease | policy/common.go:89-102 | both cursors only grow |
| PollingProofs.OnlyFirstRepeats | policy/common.go:84-94 | if errors mean rejection, accepted bundles after the first share no message, even with flushes |
| PollingProofs.RepeatsAreFirstTwo | policy/common.go:84-94 | without flushes the second accepted bundle begins with the whole first one, and no other two share a message |
| Scheduler.Poll.RunRound | policy/poll/poll.go:123-160 | one round's counters, rotation and flush signal |
| SchedulerProofs.RunIsGood | policy/poll/poll.go:101-145 | in every run counters stay in range, the group index is valid, and a counter is the number of consecutive failures in this visit |
| SchedulerProofs.FlushesEvery500 | policy/poll/poll.go:157-160 | in every run exactly the rounds 0, 500, 1000 and so on flush the outbox |
| SchedulerProofs.NobodyPolledIff | policy/poll/poll.go:129-146 | a round polls nobody exactly if every enabled peer reached RetryAttempts |
| SchedulerProofs.GroupIsLeftIff | policy/poll/poll.go:146-156 | a group is left exactly if each enabled peer failed its last RetryAttempts polls and there is a group to go to: the next with all counters cleared, or the first behind the last |
| SchedulerProofs.EveryGroupIsVisited | policy/poll/poll.go:146-152 | with RetryForever and fixed failing peers every group is visited within groups * (RetryAttempts + 1) rounds |

## Left out

- RecentBuffer.RecentBuffer.SeenRecently: fewer than 2^31 new hashes; after the counter resets at MaxInt32 the
  numeric order of counters is no longer their age.
- Node.Node.SendMsg: local contents shorter than 2^32 bytes, as lengths are truncated to uint32 beyond that.
- Node.Node.Dropoff: needs room in the cache's counter for the messages of the bundle, for the same reason.
- Node.Node.HandleChunked: Go slices a stream header's buffer up to its capacity, so one of fewer than 8 bytes may be
  read without a panic; the model counts it as one, as for chunks, and so do the lemmas on `Panics`.
- NodeProofs.SendMsgFits: policies and their limits stay fixed while a message is sent.
- EndToEnd.SentThenDelivered: the sender's queue stays in time order and is not flushed while its records are on the
  way; new records have hashes of their own.
- PollingProofs.CursorsAreSafe: each clock is strictly increasing; byte totals are unbounded integers.
- Public keys in the codec are opaque byte strings whose parse always succeeds.
- Transports, peer discovery, TLS, KCP and HTTP sessions: network code.
- Cryptography, CRC-32 and key formats: functions with the stated assumptions.
- The database-backed and file-system nodes, which repeat the RAM node's logic over a store.
- Contact, channel, profile and peer tables, the RPC dispatch, JSON import and export, events and logging: look-ups.
- Goroutines, mutexes, the debouncer's timing, sleep and jitter: a locked section is one step.
- `MsgExists`, which nothing calls.
