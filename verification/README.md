# Verified models of the audio device platform

This project models the parts of the repository whose correctness depends on state that
is shared between threads, on messages in flight, or on byte formats that two sides must
agree on, and proves what they promise over every input and every run. `dafny verify
dfyconfig.toml` checks all of it.

**Buffers.** `RingBuffer`, `BlockBuffer` and `Buffer` are classes over the array or
slice, the counters and the close flags that the originals update. A call that can block
is one critical section at a time: it returns, fails, or reports `Waits`, after which
the thread is asleep and later runs the section again. Each class is proved against
functions on a small abstract store (`Stores`, `NotifyStore`), whose laws for callers
are in `StoreLaws`, and the thread protocols (`BlockProtocol`, `BlockDeadlock`,
`BlockDiscard`, `NotifyProtocol`) interleave just those functions, for any number of
threads.

**Statistics.** The device (`ClientPort`), the lossless queue of its uploads, and the
server (`Stats.ServerPort`) form one transition system (`Replication`) under a clock
that never runs back. Convergence of the values is an invariant of that system, batches
and restamped periodic reports included. `SettingLaws` says what a device program gets
stored and sent, `StatsLaws` what merging and its diffs mean.

**Frames.** `DoubaoProtocol` holds the binary printer and parser, `CodecLaws` and
`CodecConverse` when one undoes the other, `DoubaoVariants` the second printer and the
two hand-written parsers and when they agree with the first, `ServerFrames` what servers
send and the printer never writes. `StampedFrame` is the time-stamped audio frame.

**Runs.** `Pacing` bounds the audio send loop in real time, `ListenerRuns` conserves
ports over every interleaving of messages, releases and shutdown, `ListenerLookups` says
which port a message gets, and `Uplink` keeps three concurrent streams in order.

**Algorithms.** `Percentile` (partial selection), `PairCounts` (grouped against
brute-force counting), `CortexNames`, `Cortex` and `CortexLaws` (document keys, apply
and get, paging).

Several guarantees hold only under a condition. Each is proved as an if-and-only-if, or
with a lemma that exhibits the run that breaks it: more than one producer and one
consumer (`BlockDeadlock`), elements dropped while a producer waits (`BlockDiscard`),
more than one reader or block writes into a ring (`NotifyProtocol`), a listener stopped
through its parent context (`ListenerRuns`), a printed last audio frame, a session start
or finish and archives that are empty or damaged late (`DoubaoVariants`), a name with a
colon (`CortexNames`).

Where the code and its documentation differ the model follows the code:

- `Bytes` on an empty ring or block buffer returns the whole array, not an empty slice.
- `RingBuffer.Write` never wakes a waiting reader; `Add` does.
- The frame parser accepts a payload that is cut short and reads the missing bytes as zeros.
- `Discard` with a negative count brings dropped or stale elements back instead of failing.
- A pipe send after `Close` reports success and sends nothing.
- The last audio-only message carries a sequence flag but no sequence number.
- Applying a document whose name has a colon, or is not a string, panics instead of failing.

## Model

| member | source | states |
|---|---|---|
| RingBuffer.RingBuffer.Write | go/pkg/buffer/ring_buffer.go:147-232 | on an open ring the logical contents become the last N elements of old contents followed by p, all of p counts as written, and no reader is notified; on a closed one nothing changes and the sticky error comes back |
| RingBuffer.RingBuffer.Overwrite | go/pkg/buffer/ring_buffer.go:178-231 | for any surplus, smaller or larger than the ring and at any wrap position, the block copies and the reduced advance of head and tail leave the last N elements of contents and surplus |
| RingBuffer.RingBuffer.WriteToFull | go/pkg/buffer/ring_buffer.go:157-176 | exactly the free slots are filled: as many of the first elements of p as there are free slots follow the old contents, across the wrap |
| RingBuffer.OverwriteBlocks | go/pkg/buffer/ring_buffer.go:212-225 | up to four copies write cbuf and then bbuf cyclically from slot h and touch no other slot |
| RingBuffer.LastLap | go/pkg/buffer/ring_buffer.go:190-205 | skipping whole laps loses nothing: what a full ring must end up holding is bbuf, the untouched old elements, then cbuf, and both fit into one lap |
| RingBuffer.RingBuffer.Add | go/pkg/buffer/ring_buffer.go:266-286 | appends one element, drops the oldest when full, leaves a notification; refused without effect once closed |
| NotifyStore.WriteIsAdds | go/pkg/buffer/ring_buffer.go:147-286 | for both notified buffers, every state and every p, writing p stores what adding its elements one at a time stores, though the counters move differently; adding leaves a notification exactly when one was there or an element was accepted |
| StoreLaws.WriteCountsAdds | go/pkg/buffer/ring_buffer.go:147-286 | for both notified buffers, every state and every non-empty p: a write returns the number of elements that adding them one at a time accepts, which is all of them, and fails with an error if and only if the first add fails with it; it never waits |
| RingBuffer.RingBuffer.Read | go/pkg/buffer/ring_buffer.go:58-91 | hands out the oldest elements in order into the front of the destination, leaves the rest of it alone, and removes just those; end of stream only when empty and write-closed; an error close wins over data |
| RingBuffer.RingBuffer.Next | go/pkg/buffer/ring_buffer.go:237-261 | the oldest element, or the end-of-iteration mark exactly when empty and write-closed; waits exactly when empty and open |
| RingBuffer.RingBuffer.Discard | go/pkg/buffer/ring_buffer.go:41-53 | drops the n oldest elements, or all of them; a negative n is taken too, puts stale elements in front of the contents, and keeps the ring sound iff that many slots behind head hold no live element |
| RingBuffer.RingBuffer.CloseWithError | go/pkg/buffer/ring_buffer.go:95-115 | the first error sticks and the contents stay; the channel is closed at most once |
| RingBuffer.RingBuffer.CloseWrite | go/pkg/buffer/ring_buffer.go:132-141 | ends writing and nothing else, idempotently; the channel is closed exactly when writing has ended |
| RingBuffer.RingBuffer.Bytes | go/pkg/buffer/ring_buffer.go:306-315 | returns the contents if and only if the ring is not empty; an empty ring returns a whole stale array |
| Circular.Fill | go/pkg/buffer/ring_buffer.go:162-171 | one or two block copies store a cyclic overlay of what fits |
| Circular.Drain | go/pkg/buffer/ring_buffer.go:78-90 | one or two block copies deliver the cyclic window in order, as far as the destination reaches |
| BlockBuffer.BlockBuffer.Write | go/pkg/buffer/block_buffer.go:125-164 | one critical section of a write resumed after `done` elements: appends as much as fits, signals iff something was stored, and waits, ends or fails as the store demands, never beyond the capacity |
| BlockBuffer.BlockBuffer.Add | go/pkg/buffer/block_buffer.go:288-312 | appends one element and signals; waits exactly when full and open |
| BlockBuffer.BlockBuffer.Read | go/pkg/buffer/block_buffer.go:78-110 | oldest elements first, removed as delivered; signals exactly when it returns elements; waits exactly when empty and open |
| BlockBuffer.BlockBuffer.Next | go/pkg/buffer/block_buffer.go:252-275 | same for one element, with the end-of-iteration mark at the end |
| BlockBuffer.BlockBuffer.Discard | go/pkg/buffer/block_buffer.go:52-64 | drops the n oldest elements, or all of them, and wakes nobody; a negative n puts stale elements in front and keeps the buffer sound iff that many slots behind head hold no live element |
| BlockBuffer.BlockBuffer.CloseWithError | go/pkg/buffer/block_buffer.go:178-197 | the first error sticks, the contents stay, and exactly the first close wakes everybody |
| BlockBuffer.BlockBuffer.CloseWrite | go/pkg/buffer/block_buffer.go:231-240 | ends writing only, and broadcasts exactly the first time |
| BlockBuffer.BlockBuffer.Bytes | go/pkg/buffer/block_buffer.go:356-365 | returns the contents if and only if the buffer is not empty |
| BlockProtocol.Fifo | go/pkg/buffer/block_buffer.go:78-312 | for any number of producers and consumers and every interleaving: consumed ++ contents = produced, the contents fit the capacity, and whoever was told the stream ended has got everything |
| BlockProtocol.NoLostWakeUp | go/pkg/buffer/block_buffer.go:78-312 | with one producer and one consumer, in every reachable state a waiting consumer faces an empty open buffer and a waiting producer a full open one, so they never wait together |
| BlockDeadlock.NeverAllWaitingIff | go/pkg/buffer/block_buffer.go:78-312 | threads of both kinds can never all be waiting if and only if there are exactly two of them |
| BlockDeadlock.StarveProducers | go/pkg/buffer/block_buffer.go:78-164 | two consumers and any producers: a reachable state has everybody waiting on an empty buffer |
| BlockDeadlock.StarveConsumers | go/pkg/buffer/block_buffer.go:78-164 | two producers and any consumers: a reachable state has everybody waiting on a full buffer |
| BlockDeadlock.DiscardStrands | go/pkg/buffer/block_buffer.go:52-64 | Discard or Reset on a reachable full buffer leads, even for one pair, to everybody waiting on an empty open buffer |
| BlockDiscard.DropHarmlessIff | go/pkg/buffer/block_buffer.go:52-328 | at any point of any run of one producer and one consumer, harmless drops before it included: after Discard(n) both can end up waiting for each other if and only if a producer waits and n empties the buffer, after Reset if and only if a producer waits |
| BlockDiscard.DropKeepsWakeSafeIff | go/pkg/buffer/block_buffer.go:52-328 | Discard(n) keeps "a waiting consumer faces an empty and a waiting producer a full buffer" if and only if n is 0 or no producer waits; Reset if and only if no producer waits |
| GrowBuffer.Buffer.Write | go/pkg/buffer/buffer.go:64-80 | appends p and leaves a notification; refused without effect once closed |
| GrowBuffer.Buffer.Add | go/pkg/buffer/buffer.go:276-292 | appends one element and leaves a notification |
| GrowBuffer.Buffer.Read | go/pkg/buffer/buffer.go:120-141 | oldest elements first; an error close, the end of the stream and waiting are told apart exactly |
| GrowBuffer.Buffer.Next | go/pkg/buffer/buffer.go:235-259 | same for one element |
| GrowBuffer.Buffer.Discard | go/pkg/buffer/buffer.go:93-105 | drops the n oldest elements, or all of them |
| GrowBuffer.Buffer.CloseWithError | go/pkg/buffer/buffer.go:143-176 | the first error sticks and the contents are dropped; the channel is closed once |
| GrowBuffer.Buffer.CloseWrite | go/pkg/buffer/buffer.go:216-225 | ends writing and keeps the contents; the channel is closed exactly when writing has ended |
| StoreLaws.TakeIff | go/pkg/buffer/buffer.go:120-141 | a read hands out the oldest elements, as many as there is room for; it ends if and only if the buffer is empty and write-closed, waits if and only if it is empty and open, and an error close wins over data |
| StoreLaws.DiscardIsTake | go/pkg/buffer/buffer.go:93-105 | discarding removes what a read of that size would and never waits; it fails if and only if there was an error close |
| StoreLaws.PutIff | go/pkg/buffer/block_buffer.go:125-164 | a producer's section accepts a prefix in order, within the capacity; it is done iff that is all of it, waits iff the buffer is full before, fails iff the buffer is closed, taking nothing |
| StoreLaws.PutResumes | go/pkg/buffer/block_buffer.go:125-164 | the sections of a write that had to wait add up to one write of all of it |
| StoreLaws.FirstErrorSticks | go/pkg/buffer/ring_buffer.go:95-115 | after an error close of a buffer without error, whatever is called afterwards, every read, write and discard fails with that first error, data or not |
| StoreLaws.ErrorCloseKeepsOrDrops | go/pkg/buffer/buffer.go:143-176 | an error close ends writing, drops the data of a growing buffer and keeps that of a ring or block buffer; a second one changes nothing |
| StoreLaws.WritesEnd | go/pkg/buffer/buffer.go:216-225 | after CloseWrite, whatever is called afterwards short of an error close, writes are refused, and reads hand out data while there is any and report the end exactly when there is none |
| StoreLaws.RemainderThenEnd | go/pkg/buffer/buffer.go:120-141 | enough reads of a write-closed buffer, of any sizes above zero, hand out exactly the remainder in order, and then the end |
| Notify.Channel.TrySend | go/pkg/buffer/buffer.go:73-76 | callable only on an open channel, so no verified method sends after a close; a token is there afterwards |
| Notify.Channel.Close | go/pkg/buffer/buffer.go:216-225 | callable only on an open channel, so no verified method closes it twice |
| NotifyProtocol.ReaderWakes | go/pkg/buffer/buffer.go:64-292 | for any number of writers and closers and at most one reader, a reader at the receive with data present always finds a token or a closed channel |
| NotifyProtocol.NoLostWakeUpIff | go/pkg/buffer/buffer.go:64-292 | no wake-up is ever lost if and only if nobody reads, or there is one reader and every storing operation notifies; it holds for `Buffer` with one reader, for a ring only with `Add` |
| NotifyProtocol.RingWriteIsSilent | go/pkg/buffer/ring_buffer.go:147-232 | a block write into a ring leaves a blocked reader blocked with data present and nothing in the channel |
| NotifyProtocol.TokenIsShared | go/pkg/buffer/buffer.go:120-292 | two readers share one token: a reachable state has data and a reader that nothing will wake |
| Stats.StatsRecord.MergeWith | go/pkg/chatgear/stats.go:283-386 | a stale event changes nothing; otherwise stamped fields go to the later or equal stamp, the others to any differing value, and the diff returned is that of the specification whose laws follow |
| StatsLaws.MergeDecides | go/pkg/chatgear/stats.go:283-386 | field by field: a stale event changes and reports nothing; any other moves time to its own, reset time to the later one, stamped fields to the later stamp with ties to the incoming one, other fields to the incoming value, tags only if their identifiers differ |
| StatsLaws.FirstEventTaken | go/pkg/chatgear/port_server.go:238-249 | the first event becomes the record and is reported by no diff; every other is merged and reported by its diff |
| StatsLaws.DiffComplete | go/pkg/chatgear/stats.go:283-386 | the new state is the old one overridden by exactly the reported fields; no report means at most the time moved |
| StatsLaws.DiffMinimal | go/pkg/chatgear/stats.go:283-386 | a plain field is reported exactly when its value changed; a stamped one is reported, whole, exactly when the event's entry is what the server now holds |
| StatsLaws.DiffsRebuild | go/pkg/chatgear/port_server.go:212-249 | over any run the first snapshot plus the emitted changes rebuild the server's stats but for the time of silent events |
| StatsLaws.FoldMonotone | go/pkg/chatgear/stats.go:283-386 | whatever events come in whatever order, time, reset time and every stamp never go back and no known field becomes unknown |
| StatsLaws.MergeIdempotent | go/pkg/chatgear/stats.go:283-386 | an event merged twice gives the state of merging it once, and the second merge reports no plain field |
| StatsLaws.ReplayDiff | go/pkg/chatgear/stats.go:31-52 | replaying a diff as an event gives the new state if and only if it has no cellular part and leans on no reset time before the zero time; every other field agrees always |
| Stats.CellularEqual | go/pkg/chatgear/stats.go:411-432 | true iff the two, nil included, agree in every field, the DNS list in order and the times of the ping as structs, not just as instants |
| Stats.WifiEqual | go/pkg/chatgear/stats.go:434-459 | true iff the two, nil included, agree in every field, the DNS list in order and the times of the ping as structs, not just as instants |
| Stats.NFCTagEqual | go/pkg/chatgear/stats.go:468-494 | true iff both are nil or both have the same set of tag identifiers, duplicates and order ignored; sizes and one inclusion are enough |
| Stats.StatsRecord.Clone | go/pkg/chatgear/stats.go:187-203 | the copy is field by field equal |
| Stats.ServerPort.HandleStatsEvent | go/pkg/chatgear/port_server.go:238-249 | the first event becomes the record and reports nothing from a merge; every later one is folded in place |
| ClientPort.ClientPort.NotifyStatsSend | go/pkg/chatgear/port_client.go:400-407 | whatever is pending is queued once, with the sending time, and nothing stays pending; with nothing pending nothing is queued |
| ClientPort.ClientPort.QueueFullStats | go/pkg/chatgear/port_client.go:392-396 | the whole stored stats are queued with the sending time |
| ClientPort.ClientPort.BeginBatch | go/pkg/chatgear/port_client.go:410-414 | only the mode changes |
| ClientPort.ClientPort.EndBatch | go/pkg/chatgear/port_client.go:417-422 | batch mode ends and the full stats are queued, whatever was changed meanwhile |
| ClientPort.ClientPort.SetVolume | go/pkg/chatgear/port_client.go:425-450 | stored with the call's stamp; outside batch mode one diff with just this field is queued |
| ClientPort.ClientPort.SetBrightness | go/pkg/chatgear/port_client.go:453-478 | same for brightness |
| ClientPort.ClientPort.SetLightMode | go/pkg/chatgear/port_client.go:481-506 | same for the light mode |
| ClientPort.ClientPort.SetBattery | go/pkg/chatgear/port_client.go:509-533 | same for charge and charging state, other battery readings of the store kept |
| ClientPort.ClientPort.SetWifiNetwork | go/pkg/chatgear/port_client.go:536-553 | same, nil included |
| ClientPort.ClientPort.SetWifiStore | go/pkg/chatgear/port_client.go:556-577 | same, nil included |
| ClientPort.ClientPort.SetSystemVersion | go/pkg/chatgear/port_client.go:580-602 | sets the current version only and leaves its stamp alone |
| ClientPort.ClientPort.SetCellular | go/pkg/chatgear/port_client.go:605-622 | same, nil included |
| ClientPort.ClientPort.SetPairStatus | go/pkg/chatgear/port_client.go:625-650 | same for the pair status |
| ClientPort.ClientPort.SetReadNFCTag | go/pkg/chatgear/port_client.go:653-670 | same, nil included |
| ClientPort.ClientPort.SetShaking | go/pkg/chatgear/port_client.go:673-695 | same for the shaking level |
| ClientPort.ClientPort.SendPeriodicStats | go/pkg/chatgear/port_client.go:759-864 | the round number selects fields; they are queued as the report of the specification, settings restamped with now, and the stored stats keep their old stamps |
| SettingLaws.SetterStores | go/pkg/chatgear/port_client.go:425-695 | each of the eleven setters, in any mode and state, stores exactly its argument with its stamp and leaves every other field, and the other readings of a battery or version, as they were |
| SettingLaws.SetterUploads | go/pkg/chatgear/port_client.go:425-695 | outside batch mode a setter uploads one event, carrying its argument whole, the sending time and otherwise only what was pending; in batch mode nothing is sent |
| SettingLaws.LastSettingStored | go/pkg/chatgear/port_client.go:392-864 | after any sequence of calls, batches and reports included, the store shows the last setting of every field |
| SettingLaws.BatchUploadsLastSettings | go/pkg/chatgear/port_client.go:410-422 | ending a batch uploads one event that carries the argument and stamp of the last setter call for every field, whatever was called before |
| SettingLaws.ReportUploads | go/pkg/chatgear/port_client.go:759-864 | a report changes only the queue: it uploads exactly the fields due in its round and known to the device, truthfully, settings under its own time, or nothing if there are none |
| SettingLaws.EveryFieldDue | go/pkg/chatgear/port_client.go:759-864 | each group of fields comes up within any 3, 6 and 30 consecutive rounds |
| Replication.Converges | go/pkg/chatgear/port_client.go:392-864 | in every reachable state outside batch mode, folding the queue into the server's stats yields the device's values of volume, brightness, light mode, pair status, battery, shaking and version, absent ones included; of wifi store and cellular when the device has them; the tag set; and the wifi network whole or as its report summary |
| Replication.SettingSyncs | go/pkg/chatgear/port_client.go:425-695 | every setter, in or out of batch mode, keeps device and eventual server in sync under the clock |
| Replication.ReportSyncs | go/pkg/chatgear/port_client.go:759-864 | so does every periodic report, although it sends a stamp that is later than the stored one |
| Replication.EndBatchSyncs | go/pkg/chatgear/port_client.go:417-422 | ending a batch restores full agreement however many settings it held back |
| Replication.CallKeeps | go/pkg/chatgear/port_client.go:392-864 | the inductive invariant of the whole system holds after any call at any later time |
| Replication.ReportTrimsWifi | go/pkg/chatgear/port_client.go:810-818 | a settings report replaces the server's wifi network by its four-field summary; they agree afterwards if and only if there was nothing more to it |
| Replication.ClearingIsSilent | go/pkg/chatgear/port_client.go:536-670 | setting a field to nil never reaches the server, which agrees if and only if it had nothing |
| Replication.TagsReachServer | go/pkg/chatgear/stats.go:366-371 | a new tag list reaches the server verbatim if and only if it knew none, the same list, or another set of identifiers |
| Replication.StampsMayDiffer | go/pkg/chatgear/port_client.go:783-789 | a concrete reachable state where values agree and stamps do not: why convergence is of values |
| Replication.ReportRestamps | go/pkg/chatgear/port_client.go:759-864 | after a report the server holds every setting it carries under the report's own time, in batch mode too, so its stamp is the device's if and only if the stored stamp is that time |
| DoubaoProtocol.Marshal | go/pkg/doubaospeech/protocol.go:110-160 | the bytes written step by step are the specification's encoding, for which the laws below hold |
| DoubaoProtocol.Unmarshal | go/pkg/doubaospeech/protocol.go:163-269 | the consuming parser returns the specification's result or error on every input, truncated and malformed ones included |
| ServerFrames.ServerFrameReads | go/pkg/doubaospeech/protocol.go:163-269 | every frame a server can lay out is read as meant: error codes, connection identifiers, sessions, sequence numbers, headers of any size, compressed or not, and whatever follows |
| CodecConverse.ParsedIsLaidOut | go/pkg/doubaospeech/protocol.go:163-269 | conversely every data that parses and has its payload in full is that layout of the message it parses to, errors, connection events and long headers included |
| ServerFrames.CutServerFrame | go/pkg/doubaospeech/protocol.go:163-269 | an uncompressed frame cut anywhere behind its header gets the error naming the part cut off, the error code among them, or, once a payload byte is there, the message with zeros for the missing bytes |
| ServerFrames.PrinterIsLayoutIff | go/pkg/doubaospeech/protocol.go:110-160 | the printer writes that layout if and only if the message is no error and has no connection event |
| CodecLaws.RoundTrip | go/pkg/doubaospeech/protocol.go:110-269 | parsing a printed message followed by anything gives the message back, for every canonical message and with compression |
| CodecLaws.RoundTripIff | go/pkg/doubaospeech/protocol.go:110-269 | without compression the round trip holds if and only if type and flags are nibbles, the message is no error, a flagged event is not 50 to 52, unselected fields are empty and lengths are below 2^32 |
| CodecLaws.SelfDelimiting | go/pkg/doubaospeech/protocol.go:110-269 | two printed messages that agree with any suffixes are the same message with the same suffix |
| CodecConverse.PrintParsedIff | go/pkg/doubaospeech/protocol.go:110-269 | printing undoes parsing: for every uncompressed frame with a one-word header and a zero reserved byte that parses to a message other than an error or a connection event, the printed message, with the settings of the header, is a prefix of the frame if and only if the payload was there in full |
| CodecLaws.CutFrame | go/pkg/doubaospeech/protocol.go:163-269 | without compression: a proper prefix of a printed frame is rejected if and only if it holds no payload byte; otherwise it is accepted with the missing bytes read as zeros |
| CodecLaws.ConnectionFails | go/pkg/doubaospeech/protocol.go:221-236 | an event 50 to 52 as the printer writes it, with an uncompressed payload below 2^32 bytes, never parses |
| CodecLaws.ErrorFails | go/pkg/doubaospeech/protocol.go:240-250 | without compression a printed error message, its event other than 50 to 52 if it has one, never comes back |
| DoubaoVariants.MarshalAudioOnly | go/pkg/doubaospeech/protocol.go:318-334 | header for plain bytes, length, payload; no sequence and no event whatever the flags |
| DoubaoVariants.AudioOnlyIsMarshal | go/pkg/doubaospeech/protocol.go:301-334 | the second printer agrees with the first if and only if the audio message is not the last |
| DoubaoVariants.RequestSAMI | go/pkg/doubaospeech/podcast.go:707-742 | the hand-built frame is the printer's output for the event-100 full-client message, whatever the request identifier and JSON |
| DoubaoVariants.ReceiveSAMI | go/pkg/doubaospeech/podcast.go:769-823 | the offset-driven parser computes the specification, whose relation to the full parser follows |
| CodecConverse.SAMITakes | go/pkg/doubaospeech/podcast.go:769-823 | it takes every message of four header bytes, an event with one identifier if flagged, a whole payload and anything behind, for any type, flags, event and header size, and reports those; a broken archive stays raw |
| CodecConverse.SAMITakesOnly | go/pkg/doubaospeech/podcast.go:769-823 | and takes no other message |
| DoubaoVariants.AgreesSAMI | go/pkg/doubaospeech/podcast.go:769-823 | on one-word-header non-error frames without sequence bits or events 1 and 2, a frame is taken if and only if its payload is whole and the full parser gets that far, with the same type, flags, event and payload |
| DoubaoVariants.SAMIReadsPrintedIff | go/pkg/doubaospeech/podcast.go:769-823 | of the printed canonical frames without a sequence number, compressed or not, the podcast parser returns the message if and only if it is no event 1 or 2; those it drops, although the full parser reads them |
| DoubaoVariants.ReceiveSAUC | go/pkg/doubaospeech/asr_v2.go:388-424 | the fixed-offset parser, which stops decompressing at 10 MB, computes the specification |
| CodecConverse.SAUCTakes | go/pkg/doubaospeech/asr_v2.go:388-424 | of messages with eight bytes, a whole payload and anything behind it takes those that are uncompressed or can be decompressed up to 10 MB |
| CodecConverse.SAUCTakesOnly | go/pkg/doubaospeech/asr_v2.go:388-424 | and takes no other message |
| DoubaoVariants.AgreesSAUC | go/pkg/doubaospeech/asr_v2.go:388-424 | on one-word-header non-error frames with a sequence bit and no event bit it takes exactly the whole frames that the full parser accepts if and only if the frame is no compressed empty payload (which only the full parser accepts) and no archive damaged behind the first 10 MB (which only this one accepts); what both accept they read alike up to 10 MB |
| StampedFrame.StampFrame | go/pkg/chatgear/conn_mqtt.go:37-43 | writes the specified bytes for every 64-bit time, negative ones included |
| StampedFrame.UnstampFrame | go/pkg/chatgear/conn_mqtt.go:47-63 | reads them, rejecting short input and other versions |
| StampedFrame.StampLayout | go/pkg/chatgear/conn_mqtt.go:37-43 | version 1, the seven low bytes of the 64-bit time, most significant first, and the frame, byte by byte |
| StampedFrame.UnstampIff | go/pkg/chatgear/conn_mqtt.go:47-63 | exactly what is longer than eight bytes and starts with 1 is accepted |
| StampedFrame.StampRoundTrip | go/pkg/chatgear/conn_mqtt.go:37-63 | gives the frame and its milliseconds modulo 2^56 for non-empty frames and rejects empty ones; the time is exact if and only if it is between 0 and 2^56 |
| StampedFrame.UnstampRoundTrip | go/pkg/chatgear/conn_mqtt.go:37-63 | whatever parses is what stamping the result gives: no two byte strings mean the same |
| Pacing.StreamAudioTo | go/pkg/chatgear/port_server.go:325-369 | the loop's frames and sleeps are those of the specification for any clock and any encoder output |
| Pacing.PauseIs | go/pkg/chatgear/port_server.go:341-355 | no sleep when late, 5 ms while building up the lead, and from 360 ms on the least sleep that brings the lead down to 360 ms |
| Pacing.PassStamps | go/pkg/chatgear/port_server.go:325-369 | over every run pass i, if it has a frame, sends it after those of earlier passes, stamped with the later of its starting stamp and its clock reading; each pass starts 20 ms after the stamp of the one before |
| Pacing.PassPauses | go/pkg/chatgear/port_server.go:341-355 | over every run each pass asks for the sleep of the lead it finds, so that on a timely run it takes at least 5 ms while its lead is below 360 ms |
| Pacing.Spaced | go/pkg/chatgear/port_server.go:325-369 | stamps of frames j - i apart differ by at least (j - i) times 20 ms, over every run |
| Pacing.LeadBounded | go/pkg/chatgear/port_server.go:307-369 | a stamp is never before the clock its pass read and leads the clock at sending by at most 360 ms, given a monotone clock and sleeps that do not end early |
| Pacing.RateBounded | go/pkg/chatgear/port_server.go:307-369 | the frames of the passes that read the clock from time T0 on and have left by time T number at most (T - T0 + 360) / 20 + 1 in ms |
| Pacing.SendRateBounded | go/pkg/chatgear/port_server.go:307-369 | in any interval of T ms at most (T + 360) / 20 + 2 frames are sent, over every run |
| Pacing.SendRateReached | go/pkg/chatgear/port_server.go:307-369 | a concrete run that sends exactly that many, 26 frames in 120 ms, because its first pass read the clock long before sending |
| Pacing.Gapless | go/pkg/chatgear/port_server.go:325-369 | while the loop keeps ahead of the clock and the encoder always yields a frame, stamps are exactly 20 ms apart |
| Pacing.EmptyPassesLeaveGaps | go/pkg/chatgear/port_server.go:357-368 | while the loop keeps ahead, the frame of pass i is stamped start + 20 ms * i, so that a pass without a frame leaves a gap of its 20 ms |
| Listener.ListenerTable.GetOrCreatePort | go/pkg/chatgear/listener.go:287-331 | an existing port is returned unchanged; after closing nothing is created; a new port is mapped and announced unless the channel is full; the crashing cases are told apart exactly |
| Listener.ListenerTable.TakePort | go/pkg/chatgear/listener.go:334-340 | removes exactly the named gear's port and hands it over |
| Listener.ListenerTable.TakeAllPorts | go/pkg/chatgear/listener.go:382-389 | hands over every mapped port and nothing else, as many as there are gears and none twice when no two gears share one, and drops the table |
| Listener.ListenerTable.MarkClosed | go/pkg/chatgear/listener.go:184-191 | only the first caller cancels |
| ListenerLookups.LookupIff | go/pkg/chatgear/listener.go:287-331 | in every reachable state a lookup is refused iff the listener is closed, answers iff there is one the port mapped under the gear, which was created and is not being closed, and else the next new port; it never crashes |
| ListenerLookups.LookupsAgree | go/pkg/chatgear/listener.go:287-331 | two lookups of a gear, with any run in between that neither releases it nor sweeps, answer the same port, unless the listener was closed |
| ListenerLookups.HandleMaps | go/pkg/chatgear/listener.go:287-331 | after a message its gear is mapped to the answer and every other gear to what it was |
| ListenerLookups.Announced | go/pkg/chatgear/listener.go:322-328 | a port is announced exactly once, when it is created and the channel has room |
| ListenerLookups.ReleaseIff | go/pkg/chatgear/listener.go:334-346 | a release hands over exactly the gear's port, unmaps it and nothing else, and the gear's next message gets a new one |
| ListenerLookups.SweepTakesAll | go/pkg/chatgear/listener.go:382-408 | closing hands over exactly the mapped ports, and no lookup finds one afterwards |
| ListenerRuns.Conservation | go/pkg/chatgear/listener.go:184-408 | in every run where cancelling starts from Close: each port ever created is mapped, taken for closing, or closed, and only one of these; each gear has at most one; announcements are accepted in order; after shutdown no port is left open but those a releaser holds |
| ListenerRuns.NothingAfterClose | go/pkg/chatgear/listener.go:287-408 | once the accept channel is closed no step creates, announces, reopens or crashes |
| ListenerRuns.NeverCrashesIff | go/pkg/chatgear/listener.go:184-408 | the listener never crashes if and only if its parent context is not cancelled on its own |
| Uplink.StreamsKeepOrder | go/pkg/chatgear/port_server.go:101-177 | for every interleaving of three readers and the device: polled ++ queued ++ in flight ++ channel is, for audio, state and statistics, the sequence of the items whose senders were told of success before closing; the changes delivered rebuild the server's stats |
| Uplink.LostSends | go/pkg/chatgear/conn_pipe.go:223-269 | in every reachable state, on every lane: a send gets into the stream iff the side is open and fewer granted items than the channel holds are unreceived; it is told of a full pipe iff it is open and exactly that many are; an attempt after closing is told of success and lost, and so are all later ones |
| Percentile.Percentile | go/cmd/voiceprint/denoise.go:170-189 | partial selection returns the element of the wanted rank: at most rank elements are smaller and more than rank are not greater |
| Percentile.RankUnique | go/cmd/voiceprint/denoise.go:170-189 | that condition determines the value, duplicates or not |
| Percentile.PercentileIff | go/cmd/voiceprint/denoise.go:170-189 | an element is the wanted one if and only if at most pct percent of the elements are smaller and more than pct percent, or all, are not greater |
| Percentile.NoiseFrames | go/cmd/voiceprint/denoise.go:74-96 | the noise count is the number of frames at or below the 20th percentile and at least rank + 1, so the average never divides by zero |
| PairCounts.CountRecall | go/cmd/voiceprint/main.go:597-607 | pair loops per speaker give the numbers of same-speaker pairs and of those sharing the prefix, over all pairs of samples |
| PairCounts.CountPrecision | go/cmd/voiceprint/main.go:609-630 | group arithmetic gives the brute-force numbers of pairs sharing the prefix and of same-speaker ones among them |
| PairCounts.GroupedPairs | go/cmd/voiceprint/main.go:609-630 | the sums of c(c-1)/2 over groups and speakers, in whatever key order, are those pair counts |
| PairCounts.ListedPairs | go/cmd/voiceprint/main.go:583-607 | so are the pairs counted list by list |
| PairCounts.Analyze | go/cmd/voiceprint/main.go:594-640 | both ways find the same number of hits and neither exceeds its denominator, so recall and precision lie in [0, 1] |
| PairCounts.PairsAre | go/cmd/voiceprint/main.go:594-607 | the reference count is the number of position pairs, the first before the second, whose samples are related |
| PairCounts.SamePrefixIff | go/cmd/voiceprint/main.go:601-611 | samples share a prefix iff their hashes agree in each of its characters |
| CortexNames.ParseFullNameIff | go/pkg/cortex/cortex.go:232-235 | for every registered kind the full name parses to the schema key if and only if the name has no colon |
| CortexNames.KindFromKey | go/pkg/cortex/cortex.go:240-252 | the kind inferred from a schema key is the kind, for every registered kind and any name |
| CortexNames.FullNameText | go/pkg/cortex/document.go:33-35 | the text of a full name: the kind's segments and the name with colons between |
| CortexLaws.KindOfKey | go/pkg/cortex/cortex.go:240-252 | the kind read off any key: one segment, or two for credentials and generators |
| Cortex.GetAfterApply | go/pkg/cortex/cortex.go:95-150 | after a successful apply Get returns that kind and those fields, and every other full name reads as before |
| CortexLaws.GetIff | go/pkg/cortex/cortex.go:132-150 | Get succeeds iff a readable value lies under the name, with its fields; missing and unreadable ones are told apart |
| Cortex.LookupIff | go/pkg/cortex/schema.go:60-62 | a kind is found under its name iff it is registered |
| Cortex.TakenIff | go/pkg/cortex/cortex.go:95-129 | a document is taken iff its kind is registered, its name is a non-empty string without a colon and its rules hold; the exact condition of each refusal and of the panic, with the store unchanged |
| Cortex.CortexStore.ApplyOneDocument | go/pkg/cortex/cortex.go:95-129 | the step-by-step form does that |
| Cortex.CortexStore.Apply | go/pkg/cortex/cortex.go:83-93 | the store has taken exactly the documents before the first one that is not acceptable, each reported in order with kind, name, key and whether it was created; the reason of the failure is returned and later documents have no effect; there is no failure iff all are acceptable; keys stay the full names of their documents |
| Cortex.CreatedIff | go/pkg/cortex/cortex.go:83-129 | after a batch the store has its old keys and those reported, and a document is reported as created if and only if neither the old store nor an earlier document of the batch had its key |
| Cortex.ApplyKeepsNamed | go/pkg/cortex/cortex.go:95-129 | applying keeps every readable value under the full name of the document it reads as, and the reported key is that full name |
| Cortex.CortexStore.Delete | go/pkg/cortex/cortex.go:207-222 | succeeds iff the document was there, removes just it, a following Get finds nothing, and keys stay full names |
| Cortex.List | go/pkg/cortex/cortex.go:154-204 | a pattern without a final star is an error; otherwise one page of documents, with the kind read off each key: the readable entries below the prefix after the start key, up to the limit, a non-positive one meaning the default |
| CortexLaws.LimitMeans | go/pkg/cortex/cortex.go:163-200 | All lists every readable document under the pattern; otherwise as many as the limit, ten if it is not positive, or all if there are fewer |
| CortexLaws.PatternMeans | go/pkg/cortex/cortex.go:154-163 | a final star and one colon before it are cut off; the bare star lists the whole store |
| CortexLaws.FoundInOrder | go/pkg/cortex/cortex.go:175-200 | readable entries are listed in the store's order, each as often as it is there |
| Cortex.ListedIff | go/pkg/kv/memory.go:60-88 | a pattern of whole segments covers exactly the entries whose keys continue those segments, neither the prefix itself nor a longer last segment |
| Cortex.ListingComplete | go/pkg/cortex/cortex.go:154-204 | List calls with one pattern, each from the full name of the last document of the one before, visit every readable document under the pattern once, in order: n calls give exactly the first n * limit, on any store whose keys are full names |
| Cortex.PatternPaging | go/pkg/cortex/cortex.go:154-204 | the same for pages under a pattern chained by the last key, on any store with distinct non-empty keys |
| Cortex.EveryDocumentListed | go/pkg/cortex/cortex.go:132-204 | what Get returns for a key is on one of enough chained pages for a pattern if and only if the key continues the pattern's segments |
| Cortex.PagingComplete | go/pkg/cortex/cortex.go:154-204 | for any list of entries with distinct keys: chained pages visit the readable ones once, in order, skipping what does not parse |
| Cortex.PageFrom | go/pkg/cortex/cortex.go:154-204 | a page from an existing key starts right behind its entry, readable or not |
| Cortex.VanishedFrom | go/pkg/cortex/cortex.go:154-204 | a page from a key that does not exist is empty, however much follows |

## Left out

- GrowBuffer.Buffer.Write: does not model the growth of the slice's capacity or memory exhaustion.
- RingBuffer.RingBuffer.RingN: a capacity of zero, on which every operation panics, is excluded.
- GrowBuffer.Buffer.Discard: a negative count, on which the slice expression panics, is excluded.
- RingBuffer.RingBuffer.Bytes: does not model that a straight window is returned as an alias of the internal array instead of the promised copy; the same holds for the block buffer.
- BlockBuffer.BlockBuffer.Read: reading into the very slice that was given to `Block` as storage, whose copies overlap, is excluded.
- BlockProtocol.NoLostWakeUp: is about runs without `Discard` and `Reset`, which never signal; `BlockDiscard` says exactly when those are harmless.
- Stats.StatsRecord.MergeWith: works on values, so sharing of pointers between an event, the record and the reported changes is not captured; nor are NaN readings, since floats are reals.
- Stats.StatsRecord.Clone: says that the copy is equal, not that it is independent of the original, because fields are values here; the program's copy shares the cellular pointer.
- Replication.Converges: claims the tag list only up to its identifiers, wifi networks only up to the report summary, and nothing for fields the device cleared, because the code sends no more; `ReportTrimsWifi`, `ClearingIsSilent` and `TagsReachServer` give the exact conditions. Device-side close, reconnection and lost uploads are not part of it.
- DoubaoVariants.ReceiveSAUC: is for messages below 2^32 bytes, the range of its length field.
- CodecLaws.RoundTripIff: is about uncompressed frames, where payloads and bytes correspond one to one; with compression the round trip is `RoundTrip`.
- Uplink.StreamsKeepOrder: does not cover closing the server side, ports and queues closed while readers run, or a sender racing its own closer on one side of the pipe; the filter that drops out-of-order state events is left out as a one-line comparison.
- Pacing.LeadBounded: assumes a monotone clock and sleeps that never end early; the mixer, the encoder's output and the moment of sending are inputs.
- ListenerRuns.Conservation: lets any gear be released at any moment instead of modelling inactivity times; topic parsing and the ports' own downlinks are left out.
- Percentile.Percentile: negative percentages are left out, no caller has them, and energies are reals.
- Cortex.CortexStore.Apply: whether the schema-specific rules of a kind hold is a parameter, as is the YAML text of stored fields, which either parses or does not; a store that fails is left out.
- Cortex.List: is given the store's entries in key order; sorting them, and errors of the store while listing, are left out.
- The 64-bit counters of the ring and block buffers are unbounded here.
- Gzip is three functions: decompression undoes compression, and a limited reader yields the start of what decompression yields; JSON, YAML, Opus, FFT and neural networks are left out.
- Windowing of embeddings, silence trimming, cosine similarity and the report texts of the voiceprint program: short independent loops around foreign arithmetic.
- MQTT, WebSocket and HTTP sessions, configuration, credentials and command lines.
- The device's command downlink, microphone loop and state loop, and the server's mixer tracks.
