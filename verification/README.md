# A verified model of the SDK's protocol, threading, list, hashing and buffer code

This project models the algorithmic parts of the Linux platform SDK in Dafny and proves what they are for.

* **UART framing** (`UartFrame`, `UartChecksum`, `UartFound`, `UartScan`, `UartStray`, `UartStream`, `UartCuts`, `UartWhole`, `UartPort`). The sender builds a
  packet and escapes it in place; the receiver keeps a power-of-two ring with 16-bit pointers and rescans it with a state
  machine that looks one byte back and one ahead. `UartFrame` gives the format and a byte-at-a-time reference decoder;
  `UartChecksum` says what the checksum is and sees, `UartFound` what the decoder finds, without the decoder;
  `UartScan` is the scan as a function of the bytes alone, and `UartStray` what an FE left before them does to it;
  `UartStream` proves that handling refines the decoder, so that resynchronisation and round trips follow; `UartCuts` and
  `UartWhole` say exactly where a stream may be cut, measured by the decoder and by handling all of it at once;
  `UartPort` is the program on its ring, buffers and pointers, proved to do what the scan does, up to the delivery of any
  packets in any chunks on the port the program makes. `Wrap` has the ring arithmetic, `Chunks` the concatenation of
  pieces that the streaming hashes use too.
* **Thread pool** (`ThreadPool`). Any number of workers and clients, one mutex, one condition with spurious wakeups, one
  step per source statement; safety over every run, that every work is run once, and that a shutdown ends.
* **Intrusive lists and the alarm manager** (`ListHead`, `AlarmQueue`, `AlarmManager`, `AlarmRuns`). The list operations
  on the heap; the sorted insertion by passes of a six-pointer swap; firing; and the alarm service over whole runs.
* **SHA-1 and MD5** (`HashStream`, `Sha1`, `Sha1Stream`, `Sha1Example`, `Md5`, `Md5Stream`, `Md5Example`). The block
  functions against FIPS 180-4 and RFC 1321, the streaming contexts against the fold over the padded message, and an
  example of each standard worked out.
* **CRCs** (`CrcTables`, `Crc`, `CrcChecks`, `Crc8`). The tables and table loops against bit-at-a-time division, which
  bursts cannot go unnoticed, and the values for the digits 1 to 9.
* **Camera memory** (`JzMem`). The bump allocator with its 4 MB rule.
* **Byte ring** (`RingBuffer`). The queue it is for pushes smaller than the capacity, and what the bulk path does to it.

Code that changes state is a class or a method over arrays and nodes, tied by its contract to a function of the old
state; the results over all inputs and runs are lemmas about those functions. Nothing here was executed.

## Where the code does not do what one would expect

Each of these is kept as the code has it, with the condition under which the code is right.

* The receiver looks at the ring slots around the unread bytes. A chunk boundary makes no difference to what handling all
  of the bytes at once gives exactly when the bytes before it do not end in FE, and no FE left in the slot before them has
  opened a packet in them that is still pending (`UartWhole.CutHarmlessExactly`). A packet such an FE opens may also be
  handled although the decoder, which starts idle, finds none (`UartStream.HandledPackets`); the cut stream is read as the
  decoder reads it under the condition of `UartCuts.CutDecodesExactly`, and `UartWhole.MeasuresDiffer` compares the two.
* The length a header announces is not compared with the size of the packet buffer. The copies stay inside it exactly when
  the packets found are no longer than it (`UartScan.CopyFitsExactly`, `UartStream.StreamFitsExactly`). zigbee_manager has
  a ring of 1024 bytes and a packet buffer of 128: payloads of up to 120 bytes are delivered (`UartPort.ZbPoll`), longer
  ones, say a header announcing 200 bytes, are copied past its end (`UartPort.LongPacket`), although it lets payloads of
  up to 128 bytes be sent.
* The checksum sees any one damaged byte behind the length (`UartChecksum.DamageSeen`), but not the order of the bytes
  (`UartChecksum.OrderUnseen`).
* A packet shorter than 8 bytes may have a right checksum, and is called back with a wrapped length
  (`UartChecksum.ShortPacket`).
* `uart_pro_receive` is documented to return the received length; when the ring fills up it returns one less, and on a
  ring that is already full it loses what was unread (`UartPort.Port.Receive`).
* `list_cut_position` from an empty list leaves the target head uninitialised (`ListHead.ListCutPosition`).
* The alarm device gets its seconds through a 32-bit int. It is armed for the alarm's own time exactly below 2^31
  seconds, and never too late (`AlarmQueue.ArmedNoLater`).
* An allocation moved behind a 4 MB boundary may leave its device; when it does is `JzMem.Contained`, and taking the last
  bytes of a device that ends at a boundary always does (`JzMem.LastBytes`).
* A push of the ring's capacity or more leaves the head one slot short unless it is a single byte
  (`RingBuffer.BulkPush`), and then, once it is popped, the ring gives back its old first byte, whatever is pushed next
  (`RingBuffer.BulkPushMisplaces`).

## Model

| member | source | states |
|---|---|---|
| UartFrame.SyncOnlyAtStart | zigbee/protocol/uart_protocol.c:352-366 | After escaping, FE FE occurs at index 0 and nowhere else if the high length byte is not FE; the length grows by one per FE behind the sync, to at most twice the length less 2; the last byte is not FE. |
| UartFrame.DecodePacket | zigbee/protocol/uart_protocol.c:216-303 | From whatever decoder state, the wire form of a complete packet decodes to that packet and nothing else. |
| UartFrame.PacketComplete | zigbee/protocol/uart_protocol.c:318-408 | A packet that was built is complete, its header is not mistaken for sync, and handling it calls back once with its command, payload and length: the checksum is accepted. |
| UartFrame.Resynchronises | zigbee/protocol/uart_protocol.c:216-303 | For any noise followed by a packet's wire form, the decoder hands out the packets of the noise and then exactly that packet, and ends between packets. |
| UartFrame.RoundTrip | zigbee/protocol/uart_protocol.c:216-408 | Any list of messages with payload length + 8 at most 32767, built, escaped and concatenated, is called back message by message. |
| UartFound.HandedOut | zigbee/protocol/uart_protocol.c:216-303 | One more byte brings out a packet if and only if the bytes read so far end in the wire form of a complete packet, that packet, and nothing otherwise. |
| UartFound.FoundExactly | zigbee/protocol/uart_protocol.c:216-303 | The packets of a stream are exactly those whose wire form stands somewhere in it. |
| UartChecksum.SumAppend | zigbee/protocol/uart_protocol.c:80-87 | The sum of two pieces is the sum of their sums modulo 2^16. |
| UartChecksum.SumPermutes | zigbee/protocol/uart_protocol.c:80-87 | The order of the bytes plays no part. |
| UartChecksum.SumReplaced | zigbee/protocol/uart_protocol.c:80-87 | Replacing a byte changes the sum by the difference of the bytes. |
| UartChecksum.PacketFields | zigbee/protocol/uart_protocol.c:318-339 | Where sync, length, command, serial number and payload of a packet are; its last two bytes are the sum of all others, high byte first. |
| UartChecksum.DamageSeen | zigbee/protocol/uart_protocol.c:381-408 | With one byte behind the length replaced a packet stays a framed packet, and leads to no callback if and only if the byte is a different one. |
| UartChecksum.DamageRejected | zigbee/protocol/uart_protocol.c:381-408 | Behind any noise, the wire form of such a packet is handed out and adds no callback. |
| UartChecksum.OrderUnseen | zigbee/protocol/uart_protocol.c:381-408 | The bytes between length and checksum in another order are accepted just as well. |
| UartChecksum.ShortPacket | zigbee/protocol/uart_protocol.c:381-408 | The five bytes FE FE 00 01 FC pass for a packet and are called back with length 65533. |
| UartChecksum.WireExample | zigbee/protocol/uart_protocol.c:318-366 | Command 1, serial number 1 and the payload FE go over the line as FE FE 00 05 01 01 FE 5A 03 01. |
| UartScan.GotFramed | zigbee/protocol/uart_protocol.c:216-303 | Whatever lies in the ring and around the unread bytes, what the scan copies out is a framed packet whose length field is right. |
| UartScan.ScanDecodes | zigbee/protocol/uart_protocol.c:175-303 | From a cursor that stands where the decoder does, on bytes not ending in FE, the scan finds the packet the decoder hands out first and leaves the read pointer behind it; without one, the read pointer is left on the header of the open packet, if any, from where a rescan brings the decoder back. |
| UartScan.StepBack | zigbee/protocol/uart_protocol.c:175-202 | The read pointer ends before its start only if an FE lay before the unread bytes that could be taken for their first sync byte. |
| UartScan.CopyWire | zigbee/protocol/uart_protocol.c:279-288 | Copying a packet out of the ring undoes the escaping: the packet's bytes, using exactly its wire bytes. |
| UartStray.StrayScanned | zigbee/protocol/uart_protocol.c:175-303 | A single FE at the start, behind an FE in the slot before, opens a packet counted one byte short: it breaks off at the first FE that is not data, is taken when one byte more than announced has come, or else moves the read pointer back by one. |
| UartStray.FirstAgrees | zigbee/protocol/uart_protocol.c:175-303 | On bytes not ending in FE, where no FE strays or the packet it opens breaks off, the scan from its start does what the decoder does. |
| UartStream.HandleDecodes | zigbee/protocol/uart_protocol.c:457-470 | On bytes not ending in FE, where no FE strays from the slot before or the packet it opens breaks off, handling refines the decoder: the same packets in order, and the bytes left in the ring are those of the open packet from its header on, whatever the slot behind holds. |
| UartStream.HandledPackets | zigbee/protocol/uart_protocol.c:457-470 | On any bytes not ending in FE, whatever the slots around them hold, handling never steps over the write pointer, and its packets are the one a stray FE opened, if it is taken, and then those of the decoder. |
| UartStream.HandleResynchronises | zigbee/protocol/uart_protocol.c:175-303 | Noise in front of a packet cannot swallow it, whatever the slots around them hold: the last callback of handling is that packet's, and the ring ends empty. Before it come the callbacks of the noise and, first, that of the packet a stray FE opened. |
| UartStream.HeldAlongPackets | zigbee/protocol/uart_protocol.c:457-513 | While packets of at most w wire bytes arrive, cut anywhere, fewer than w bytes are ever held back. |
| UartScan.CopyFitsExactly | zigbee/protocol/uart_protocol.c:277-292 | The copy stays inside a packet buffer of n bytes if and only if the packet the scan finds, if any, has at most n bytes; nothing else bounds it. |
| UartStream.HandleFitsExactly | zigbee/protocol/uart_protocol.c:457-470 | All copies made while the ring is handled stay inside the packet buffer if and only if every packet found fits it. |
| UartStream.StreamFitsExactly | zigbee/protocol/uart_protocol.c:457-470 | On bytes not ending in FE they do if and only if the decoder's packets and the one a stray FE opened, if taken, fit it. |
| UartStream.PacketFitsExactly | zigbee/protocol/uart_protocol.c:277-292 | A packet that arrives alone, whatever the slots around it hold, is copied inside the buffer if and only if its payload and 8 bytes fit. |
| UartWhole.CutHarmlessExactly | zigbee/protocol/uart_protocol.c:175-202 | For all bytes and whatever lies before them: handling before and after a chunk boundary gives the packets and leaves the bytes that handling everything at once does, for all stale slots and continuations, if and only if the bytes before the boundary do not end in FE and no FE before them has opened a packet in them that is still pending. |
| UartWhole.LateCut | zigbee/protocol/uart_protocol.c:175-202 | Where the packet a stray FE opened is taken before the boundary, the cut changes something if and only if it does for the bytes behind that packet. |
| UartWhole.MeasuresDiffer | zigbee/protocol/uart_protocol.c:175-202 | Being the same as one delivery and being read as the decoder reads it are the same condition, except behind an FE without bytes, with the stray packet taken, or with just FE 00 00. |
| UartCuts.CutDecodesExactly | zigbee/protocol/uart_protocol.c:175-202 | For all bytes and whatever lies before them: handling before and after a chunk boundary gives the packets of the decoder started idle, for all stale slots and continuations, if and only if the bytes before the boundary do not end in FE and no FE strays into them, unless the packet it opens breaks off or the bytes are just FE 00 00. |
| UartCuts.UnsafeCut | zigbee/protocol/uart_protocol.c:175-202 | For bytes that end in FE and are otherwise read as the decoder reads them, a stale slot and a continuation with which the cut stream is not read as the decoder reads it. |
| UartPort.Port.constructor | zigbee/zigbee/zigbee_manager.c:94-98 | A port made from the zero-initialised record has both pointers at 0 and, as uart_pro_init allocates them, buffers of the given lengths, the send buffer of twice its length, whatever the memory holds. |
| UartPort.Port.FreeSize | zigbee/protocol/uart_protocol.c:64-78 | Free and unread bytes add up to one less than the ring, at every wrap offset. |
| UartPort.Port.Receive | zigbee/protocol/uart_protocol.c:484-513 | Appends as many bytes as are free without touching unread ones; the count returned is one short when the ring fills; on a full ring the unread bytes are lost. |
| UartPort.Port.ExtractTransChar | zigbee/protocol/uart_protocol.c:175-202 | The three-way test of an FE by its neighbours, with its effect on the state and the read pointer, is the pure judgement on the bytes. |
| UartPort.Port.Transition | zigbee/protocol/uart_protocol.c:233-276 | The state switch below the last byte of a packet is one step of the pure scan, pointers modulo 2^16. |
| UartPort.Port.CopyOut | zigbee/protocol/uart_protocol.c:277-292 | The copy loop yields the packet without escapes and moves the read pointer over exactly the bytes used, or fails where the ring runs out. |
| UartPort.Port.ExtractProPkg | zigbee/protocol/uart_protocol.c:216-303 | The program's scan on the ring gives the packet, its length and the read pointer of the pure scan, and terminates. |
| UartPort.Port.GenChecksum | zigbee/protocol/uart_protocol.c:80-87 | The sum of the bytes modulo 2^16. |
| UartPort.Port.PackHandle | zigbee/protocol/uart_protocol.c:381-408 | Calls back with command and payload if and only if the checksum is right, and returns 0 or -1 accordingly. |
| UartPort.Port.Handle | zigbee/protocol/uart_protocol.c:457-470 | Terminates with the callbacks, in order, of the packets that scanning again and again finds, and the bytes left over in the ring. |
| UartPort.Port.HandlesUnlessEndsInFE | zigbee/protocol/uart_protocol.c:457-470 | A ring that is not full and whose bytes do not end in FE can be handled if and only if its packets, that of a stray FE included, fit the packet buffer. |
| UartPort.Port.Send | zigbee/protocol/uart_protocol.c:530-554 | What reaches the send handler is the escaped packet with the next serial number, and a receiver calls it back with the command and payload given. |
| UartPort.SerialNumber.GenSn | zigbee/protocol/uart_protocol.c:89-97 | Serial numbers run from 1 to 255 and start again at 1. |
| UartPort.PackBuild | zigbee/protocol/uart_protocol.c:318-339 | The buffer holds the packet: sync, length, command, serial number, payload, checksum; its length is the payload's plus 8. |
| UartPort.BufMovRAByte | zigbee/protocol/uart_protocol.c:124-132 | The bytes move one place up, those before stay. |
| UartPort.PackTranslate | zigbee/protocol/uart_protocol.c:352-366 | In place, the buffer becomes the wire form of the packet; the loop with the growing bound terminates. |
| UartPort.DeliverAll | zigbee/zigbee/zigbee_manager.c:221-224 | Receiving and handling chunk by chunk, for any chunks that fit the ring and do not end in FE, of a stream whose packets fit the packet buffer, where an FE before an empty ring opens no packet in the first chunk or one that breaks off, gives the callbacks of the whole stream, and the ring keeps exactly the open packet. |
| UartPort.DeliverFrames | zigbee/protocol/uart_protocol.c:457-513 | Any list of packets that fit the packet buffer, cut anywhere but behind an FE into chunks that fit beside what is held, is called back message by message, whatever the memory of the ring held, and the ring ends empty. |
| UartPort.CutFits | zigbee/protocol/uart_protocol.c:64-78 | Chunks that leave room in the ring for the longest packet on the wire always fit beside what is held. |
| UartPort.ZbPoll | zigbee/zigbee/zigbee_manager.c:209-228 | On the program's own port, packets of up to 120 payload bytes, read in pieces of up to 128 bytes that do not end in FE, are called back message by message. |
| UartPort.LongPacket | include/zigbee/protocol/uart_protocol.h:20-21 | A packet of 121 to 504 payload bytes fits the program's ring, and its copy leaves the program's packet buffer. |
| ThreadPool.RunInv | utils/thread_pool/thread_pool.c:48-315 | In every reachable state the mutex, counter, wakeup, order, conservation and shutdown invariants hold. |
| ThreadPool.NoLostWakeup | utils/thread_pool/thread_pool.c:53-73 | Whenever the pool runs and a worker sleeps, whoever owns the mutex, the queue is no longer than the number of awake workers without work, plus one while the signal for an added work is to come, unless start's broadcast is to come; with the mutex free it is no longer than that number. |
| ThreadPool.NobodySleepsAfterExit | utils/thread_pool/thread_pool.c:105-109 | Once destroy's broadcast is out, no worker is ever asleep. |
| ThreadPool.ExactlyOnceInOrder | utils/thread_pool/thread_pool.c:65-85 | Every added work is in exactly one place: queued, in one worker's hands, finished, or freed by destroy; works are taken in the order they were added. |
| ThreadPool.EachRunOnce | utils/thread_pool/thread_pool.c:75-84 | At any moment the works whose routine has run are those finished and those whose callback or release is due, likewise for the callbacks; so a finished work, if added once, was run once and called back once. |
| ThreadPool.OperationsTakeEffect | utils/thread_pool/thread_pool.c:246-311 | When an operation lets go of the mutex it is the one that was called, and the work is the last one added, the pool started, or stopped, or stopped with the exit flag set. |
| ThreadPool.ReturnsWhenDone | utils/thread_pool/thread_pool.c:87-311 | An operation returns only after that, or, if it is a destruction, because the exit flag was set before; a destruction carried out ends with the pool drained and freed. |
| ThreadPool.StoppedTakesNothing | utils/thread_pool/thread_pool.c:53-67 | While the pool is stopped, no work is taken off the list. |
| ThreadPool.CounterRight | utils/thread_pool/thread_pool.c:65-74 | With the mutex free, queue_size is the length of the list; the branch for an empty list is never taken. |
| ThreadPool.MutualExclusion | utils/thread_pool/thread_pool.c:48-143 | No two threads are in critical sections at once. |
| ThreadPool.AfterDestroy | utils/thread_pool/thread_pool.c:111-143 | When destroy has freed the pool, all workers have exited, nothing is queued or running, every work added was finished or freed, and those finished are those whose routine and callback have run. |
| ThreadPool.ShutdownGoesOn | utils/thread_pool/thread_pool.c:56-88 | With the exit flag set, as long as a worker is left, the owner of the mutex or else every such worker can take a step. |
| ThreadPool.ShutdownEnds | utils/thread_pool/thread_pool.c:48-143 | With the exit flag set, over every interleaving with clients and spurious wakeups, the worker steps taken and the work left are at most the work left before and ten for every work added meanwhile; the invariants and the flag stay. |
| ThreadPool.StepsCounted | utils/thread_pool/thread_pool.c:48-88 | The worker steps counted there are the places among the events where a worker takes a step. |
| ThreadPool.NothingRemains | utils/thread_pool/thread_pool.c:111-116 | No work is left exactly when the list is empty and all workers have exited, so that every join returns. |
| ListHead.InitListHead | include/utils/list.h:53-57 | The head alone is a ring. |
| ListHead.ListAddBetween | include/utils/list.h:66-74 | Inserting between two neighbours of a ring gives the ring with the node inserted there. |
| ListHead.ListAdd | include/utils/list.h:89-92 | The new entry is the first. |
| ListHead.ListAddTail | include/utils/list.h:103-106 | The new entry is the last. |
| ListHead.ListDel | include/utils/list.h:133-138 | The ring without the entry, whose own pointers are poisoned. |
| ListHead.ListEmpty | include/utils/list.h:215-218 | True exactly for a list without entries. |
| ListHead.ListIsSingular | include/utils/list.h:257-260 | True exactly for a list of one entry. |
| ListHead.GetListSize | include/utils/list.h:600-608 | The number of entries. |
| ListHead.ListCutPosition | include/utils/list.h:262-300 | The rest is a list; the prefix up to the entry is one if and only if there was something to cut or the target already was an empty list. |
| ListHead.ListSplice | include/utils/list.h:302-326 | The entries of one list stand in front of those of the other. |
| ListHead.ListSpliceTailInit | include/utils/list.h:364-371 | Concatenation, leaving the source list empty. |
| ListHead.CutAndSplice | include/utils/list.h:262-326 | Splicing back what was cut off restores the list, for any entry and for the head itself. |
| ListHead.ListMoveTail | include/utils/list.h:193-198 | The entry moves to the end of its own list or of another one, all others keep their order. |
| ListHead.ListRotateLeft | include/utils/list.h:243-251 | The first entry moves to the end; an empty list stays as it is. |
| ListHead.RotateAround | include/utils/list.h:243-251 | As many rotations as there are entries are the identity. |
| AlarmManager.SwapWithNext | alarm/alarm_manager.c:146-153 | The six pointer writes exchange two neighbours and leave a well-formed ring. |
| AlarmManager.OnlyInversion | alarm/alarm_manager.c:138-157 | With everything but the new entry sorted, the only neighbours out of order are the new entry and a later alarm just before it, so that skipping the pair after a swap misses nothing. |
| AlarmManager.BubblePass | alarm/alarm_manager.c:138-157 | One pass moves the new entry one place forward unless it is placed, and changes nothing else. |
| AlarmManager.SortLast | alarm/alarm_manager.c:136-160 | As many passes as entries bring the new entry to its place. |
| AlarmManager.AddAlarmLocked | alarm/alarm_manager.c:127-176 | The list is well formed with the same nodes, the new one behind all alarms not later than it; the index returned is that of the first alarm with its time. |
| AlarmManager.RemoveAlarmLocked | alarm/alarm_manager.c:111-125 | The list without the listener's alarms, otherwise unchanged. |
| AlarmManager.Manager.SetRepeat | alarm/alarm_manager.c:239-257 | The list becomes the old one with the listener's alarm replaced; the device is re-armed if and only if the new alarm is as early as the first. |
| AlarmManager.Manager.SetLocked | alarm/alarm_manager.c:209-237 | The device is armed for the time, the seconds cut to 32 bits. |
| AlarmManager.Manager.Cancel | alarm/alarm_manager.c:347-353 | The list without the listener's alarm; the device stays armed. |
| AlarmManager.Manager.TriggerAlarmLocked | alarm/alarm_manager.c:269-311 | The trigger list holds exactly the alarms that are due, the alarm list the others, and the device is armed for the new first one if there is one. |
| AlarmQueue.InsertKeepsOrder | alarm/alarm_manager.c:136-160 | Insertion is stable and keeps the list sorted: exactly the alarms not later than the new one stand before it. |
| AlarmQueue.SetKeepsOrder | alarm/alarm_manager.c:239-257 | Setting keeps the list sorted with one alarm per listener. |
| AlarmQueue.SetIsUpdate | alarm/alarm_manager.c:239-257 | On the map from listeners to times, set is update. |
| AlarmQueue.CancelIsRemoval | alarm/alarm_manager.c:347-353 | On that map, cancel is removal. |
| AlarmQueue.FiringExact | alarm/alarm_manager.c:285-304 | The scan that stops at the first alarm in the future takes exactly the alarms due, ascending, and keeps exactly the others, sorted. |
| AlarmQueue.ArmedNoLater | alarm/alarm_manager.c:209-237 | The device is never armed later than the alarm's time, and for exactly that time if and only if its seconds are below 2^31. |
| AlarmRuns.WakeupInTime | alarm/alarm_manager.c:239-353 | In every reachable state the list is sorted, one alarm per listener, and while it is not empty a wakeup is pending, being served, or armed for no later than the first alarm, also after the armed alarm was cancelled or replaced. |
| AlarmRuns.FiresOnceAndNeverEarly | alarm/alarm_manager.c:269-341 | Over any run no alarm is called more often than it was set, and none before its time by the clock reading that fired it. |
| AlarmRuns.CalledInOrder | alarm/alarm_manager.c:287-341 | The listeners of one firing are called in the order of their alarms' times, before those of the next. |
| AlarmRuns.NoAlarmLost | alarm/alarm_manager.c:239-353 | Every alarm set is in the list, about to be called, called, or was cancelled or replaced, each counted once. |
| AlarmRuns.ListRefinesMap | alarm/alarm_manager.c:239-353 | After any run the list holds exactly the map that setting, cancelling and firing make. |
| Sha1.F0IsCh | lib/sha/libsha1.c:31-31 | The rewritten choice function is Ch of FIPS 180-4. |
| Sha1.F2IsMaj | lib/sha/libsha1.c:33-33 | The rewritten majority function is Maj. |
| Sha1.SwapIsBigEndian | lib/sha/libsha1.c:22-27 | Swapping a word read from little-endian memory is reading it big-endian. |
| Sha1.NextWord | lib/sha/libsha1.c:29-30 | The in-place recurrence over 16 words gives the word of the 80-word message schedule. |
| Sha1.B1 | lib/sha/libsha1.c:29-30 | The 16 words in the buffer stay the last 16 of the schedule. |
| Sha1.RoundRenamed | lib/sha/libsha1.c:34-38 | A round that adds into one variable and renames the others is the round of section 6.1.2 of FIPS 180-4, the sum in another order. |
| Sha1.Transform | lib/sha/libsha1.c:41-141 | The 80 macro rounds with renamed variables and 16 words in place compute the compression function of section 6.1.2 of FIPS 180-4. |
| Sha1Stream.Context.Update | lib/sha/libsha1.c:152-173 | The chaining value is the fold over the whole blocks of the message so far, the buffer holds its remaining bytes, and the counter words hold 8 times its length modulo 2^64. |
| Sha1Stream.Context.Pad | lib/sha/libsha1.c:193-196 | The padding loop terminates with the least number of zeros that leaves room for the length. |
| Sha1Stream.Context.Final | lib/sha/libsha1.c:184-205 | The digest is that of the padded message with its length before padding, big-endian; the context is cleared. |
| Sha1Stream.CounterBytes | lib/sha/libsha1.c:187-190 | The eight bytes, written by shifts into two halves, are the 64-bit counter, most significant byte first. |
| Sha1Stream.BigBytesBack | lib/sha/libsha1.c:187-190 | Read back most significant byte first, the bytes of a number are the number. |
| Sha1Stream.Hash | lib/sha/libsha1.c:207-213 | The digest of the buffer. |
| Sha1Stream.HashParts | lib/sha/libsha1.c:152-205 | However a message is cut into updates, the digest is that of the whole. |
| Sha1Example.DigestExample | lib/sha/libsha1.c:41-213 | The digest of "abc" is the one FIPS 180-4 gives. |
| Sha1Example.ConstantsAreRoots | lib/sha/libsha1.c:34-38 | The round constants are the whole parts of 2^30 times the square roots of 2, 3, 5 and 10. |
| Sha1Example.StartPattern | lib/sha/libsha1.c:143-150 | The five starting words, low byte first, are the hexadecimal digits counted up, counted down, and F0 E1 D2 C3. |
| HashStream.AbsorbRest | lib/sha/libsha1.c:152-168 | What is absorbed next depends on the message so far only through the chaining value and the bytes behind its whole blocks. |
| HashStream.CountAdds | lib/sha/libsha1.c:169-172 | Adding a length to the two counter words, the carry seen by a wrapped sum, counts bits modulo 2^64. |
| HashStream.PadZerosFit | lib/md5/libmd5.c:99-100 | Below 64 there is exactly one number of zeros that puts the length at the end of a block, and it is the program's. |
| HashStream.PaddedWhole | lib/sha/libsha1.c:192-198 | The padded message consists of whole blocks. |
| Md5.DecodeEncode | lib/md5/libmd5.c:107-131 | Decoding undoes encoding for any words. |
| Md5.EncodeDecode | lib/md5/libmd5.c:107-131 | Encoding undoes decoding for any bytes in fours. |
| Md5.Encode | lib/md5/libmd5.c:107-119 | The loop writes every word least significant byte first. |
| Md5.Decode | lib/md5/libmd5.c:121-131 | The loop reads every word least significant byte first. |
| Md5.Turn | lib/md5/libmd5.c:21-54 | The macros' add, rotate, add is the step of RFC 1321, the sum in another order. |
| Md5.Transform | lib/md5/libmd5.c:133-217 | The 64 macro steps with renamed variables compute the function of section 3.4 of RFC 1321, step by step as its table lists them. |
| Md5Stream.Context.Update | lib/md5/libmd5.c:68-93 | The state is the fold over the whole blocks of the message so far, the buffer holds the rest, the counter words its length in bits modulo 2^64. |
| Md5Stream.PaddingIs | lib/md5/libmd5.c:56-58 | The leading bytes taken from the padding array are the 0x80 and the right number of zeros. |
| Md5Stream.Context.Final | lib/md5/libmd5.c:95-105 | The digest is that of the padded message with its length before padding, low word first. |
| Md5Stream.Hash | lib/md5/libmd5.c:219-226 | The digest of the buffer. |
| Md5Stream.HashParts | lib/md5/libmd5.c:68-105 | However a message is cut into updates, the digest is that of the whole. |
| Md5Example.DigestExample | lib/md5/libmd5.c:59-226 | The digest of "abc" is the one RFC 1321 gives. |
| CrcTables.Table32Entry | lib/crc/libcrc.c:20-73 | Every entry of the table is the remainder of its index after eight steps of division by the reflected polynomial. |
| CrcTables.Table16Entry | lib/crc/libcrc.c:84-118 | Every entry is the remainder of its index by x^16 + x^12 + x^5 + 1. |
| Crc.BitsLinear32 | lib/crc/libcrc.c:75-82 | The division is linear over exclusive or. |
| Crc.TableStep32 | lib/crc/libcrc.c:79-80 | A table look-up is eight steps of the division, for every register and byte. |
| Crc.LocalCrc32 | lib/crc/libcrc.c:75-82 | The table loop is bit-at-a-time division, for every buffer and initial value. |
| Crc.TableStep16 | lib/crc/libcrc.c:126-127 | A table look-up is eight steps of the division, for every register and byte. |
| Crc.LocalCrc16 | lib/crc/libcrc.c:120-130 | The table loop is bit-at-a-time division. |
| Crc.DivideInjective32 | lib/crc/libcrc.c:75-82 | What follows keeps different registers different. |
| Crc.BurstDetected32 | lib/crc/libcrc.c:75-82 | Messages that may differ only in the same four consecutive bytes have equal CRCs if and only if they are equal, for any register and surroundings. |
| Crc.HiddenBurst32 | lib/crc/libcrc.c:75-82 | Four is the limit: two messages differing within five bytes have the same CRC from every initial value. |
| Crc.BurstDetected16 | lib/crc/libcrc.c:120-130 | The same for two consecutive bytes. |
| Crc.HiddenBurst16 | lib/crc/libcrc.c:120-130 | Two is the limit: two messages differing within three bytes share their CRC. |
| CrcChecks.OwnCrc32 | lib/crc/libcrc.c:75-82 | A message followed by its register, low byte first, leaves 0, from every initial value. |
| CrcChecks.OwnCrc16 | lib/crc/libcrc.c:120-130 | The same, high byte first. |
| CrcChecks.CheckValue32 | lib/crc/libcrc.c:75-82 | For the digits 1 to 9, from all bits set and inverted at last, the CRC is cbf43926. |
| CrcChecks.CheckValue16 | lib/crc/libcrc.c:120-130 | For the digits 1 to 9 the CRC is 31c3. |
| Crc8.Step | lib/crc/libcrc.c:132-145 | The loop in the upper half of a 16-bit register is eight steps of division by x^8 + x^2 + x + 1. |
| Crc8.LocalCrc8 | lib/crc/libcrc.c:147-155 | The loop is bit-at-a-time division starting from the low byte of the initial value; without data the initial value itself is returned. |
| Crc8.ByteDetected8 | lib/crc/libcrc.c:147-155 | Messages that may differ in one byte have equal CRCs if and only if they are equal. |
| Crc8.HiddenBurst8 | lib/crc/libcrc.c:147-155 | One is the limit: two messages differing in two bytes share their CRC. |
| Crc8.OwnCrc8 | lib/crc/libcrc.c:147-155 | A message followed by its CRC leaves 0. |
| Crc8.CheckValue8 | lib/crc/libcrc.c:132-155 | For the digits 1 to 9 the CRC is f4. |
| JzMem.CrossingSeen | camera_v4l2/cim/jz_mem.c:233-235 | The test on three masked bits sees exactly whether the region and the byte behind it lie in one 4 MB block, and a crossing one is moved forward. |
| JzMem.Placed | camera_v4l2/cim/jz_mem.c:205-250 | An allocation lies behind all earlier ones, has the normalised alignment, ends where the next may start, and does not straddle a 4 MB boundary unless it is larger than 4 MB. |
| JzMem.Granted | camera_v4l2/cim/jz_mem.c:224-250 | A request gets an address if and only if it fits behind what was allocated before, rounded up; otherwise only the rounding stays. |
| JzMem.NoWaste | camera_v4l2/cim/jz_mem.c:232-243 | The region starts less than the alignment behind the earlier ones, or, if it would cross a 4 MB boundary there, at the last boundary up to its end. |
| JzMem.AllocationsApart | camera_v4l2/cim/jz_mem.c:205-250 | Over any sequence of requests of positive size the regions are pairwise disjoint, each is aligned as normalised, and none of at most 4 MB straddles a boundary. |
| JzMem.ServeNext | camera_v4l2/cim/jz_mem.c:205-250 | Every region granted, and no other, joins the regions handed out, with its size and alignment. |
| JzMem.Contained | camera_v4l2/cim/jz_mem.c:233-241 | A region lies in the device if and only if it was not moved or the device reaches as far behind the boundary as the region is large. |
| JzMem.LastBytes | camera_v4l2/cim/jz_mem.c:233-241 | Taking the last bytes of a device that ends at a 4 MB boundary gives the address behind the device. |
| JzMem.Allocator.Alloc | camera_v4l2/cim/jz_mem.c:205-250 | Address and record are those of the allocation function, also when it fails after rounding the used size up. |
| JzMem.Translation | camera_v4l2/cim/jz_mem.c:51-84 | Inside the device the two translations are inverse, and contiguous memory is contiguous in both views. |
| JzMem.Windows | camera_v4l2/cim/jz_mem.c:62-71 | Outside the device exactly the addresses in the first and fifth sixteenth have no physical address; the others lose their upper three bits, as in the two windows on physical memory. |
| JzMem.Backwards | camera_v4l2/cim/jz_mem.c:74-84 | Exactly the physical addresses of the device have a virtual one, which leads back. |
| RingBuffer.PushAppends | ring_buffer/ring_buffer.c:81-95 | A push smaller than the capacity appends exactly the bytes it accepts, and the head stays where the next byte goes. |
| RingBuffer.AcceptsWhatFits | ring_buffer/ring_buffer.c:81-95 | A push that fits is accepted whole, as is one of the capacity or more; of any other a prefix is, and the ring is full. |
| RingBuffer.PopTakes | ring_buffer/ring_buffer.c:97-115 | A pop removes exactly the oldest bytes, and does not change whether the head is right. |
| RingBuffer.Fifo | ring_buffer/ring_buffer.c:81-115 | Over any run of pops and pushes smaller than the capacity, the bytes accepted are those popped followed by those still in the ring, in order. |
| RingBuffer.BulkPush | ring_buffer/ring_buffer.c:51-79 | A push of the capacity or more replaces the content; the head is right afterwards if and only if it was a single byte. |
| RingBuffer.BulkPushMisplaces | ring_buffer/ring_buffer.c:51-95 | After a bulk push of two bytes or more is popped and one more byte pushed, what the ring holds is the old first byte, whatever was pushed. |
| RingBuffer.Buffer.constructor | ring_buffer/ring_buffer.c:27-41 | A new ring is empty and its head right. |
| RingBuffer.Buffer.Push | ring_buffer/ring_buffer.c:47-95 | The memory after a push is the push function of the memory before, on all three paths, and the count is the number of bytes accepted. |
| RingBuffer.Buffer.Pop | ring_buffer/ring_buffer.c:97-115 | The bytes handed out are the oldest ones, the rest of the caller's buffer is untouched, and the ring is the pop function of the ring before. |
| RingBuffer.Buffer.GetFreeSize | ring_buffer/ring_buffer.c:129-131 | Free and available bytes add up to the capacity. |

## Left out

Assumptions and limits of the members above:

- UartPort.Port.ExtractProPkg: requires that the scan does not step over the write pointer, which can only happen when the bytes end in FE, that the packet it finds fits the packet buffer, and, if an FE strays from the slot before the read pointer, that the ring is not full, so that there is room to step back. The code checks none of them.
- UartPort.Port.Handle: requires the same for all its scans; UartPort.Port.HandlesUnlessEndsInFE gives a condition a caller can see.
- UartPort.Port.PackHandle: a packet shorter than 8 bytes with a right checksum is called back with a wrapped length; its payload argument is modelled as empty.
- UartPort.Port.Receive: the length is positive, as the program asserts.
- UartFrame.PacketComplete: a payload whose packet's high length byte is FE cannot be parsed and is excluded; the other results ask for payload length + 8 at most 32767.
- UartPort.Port.Send: payload length + 8 is at most 32767, because the program moves bytes with a 16-bit signed index and returns a 16-bit signed length, and the wire form fits the send buffer, which the program does not check.
- UartPort.PackBuild: payload length + 8 is at most 65535, where the 16-bit length does not wrap.
- UartPort.Port.constructor: the allocations of uart_pro_init succeed; the packet buffer has at least the 6 bytes up to the serial number, which pack_handle reads from any packet.
- UartPort.PackTranslate: packets of at most 32767 bytes, the range of its 16-bit signed index.
- UartPort.SerialNumber.GenSn: the counter is shared by all ports of the program and not guarded by a lock.
- UartPort.DeliverAll: the loop of zigbee_manager without its device reads and thread cancellation.
- ThreadPool.RunInv: callers do not use the pool once destroy frees it and do not call destroy from two threads at once; destroy gets the number of threads started; creation succeeds.
- ThreadPool.ShutdownEnds: routines and callbacks are single steps, so a routine that never returns is not modelled; nor is fairness, so that a step that stays possible is taken is not stated.
- ThreadPool.CounterRight: the counter does not reach 2^32.
- AlarmRuns.WakeupInTime: arming the device and waiting for it do not fail; repeat intervals are stored by the program but never used; the dummy alarm that stop sets is an ordinary set.
- AlarmManager.Manager.SetRepeat: listeners are numbers other than 0, as the program asserts they are not NULL.
- ListHead.ListDel: the poison values are modelled as null.
- Sha1Stream.Context.Update: the counter words are 32 bits wide, as unsigned long is on the 32-bit target; a single update is shorter than 2^31 - 64 bytes, the range of its int offset.
- Sha1Stream.Hash: the buffer is as short as an update.
- Sha1Stream.HashParts: each part is as short as an update.
- Sha1.Transform: words lie in memory least significant byte first, the branch of the program for little-endian machines. Clearing the local variables is not modelled.
- Md5Stream.Context.Update: a single update is shorter than 2^32 - 64 bytes, where the loop index does not wrap.
- Md5Stream.Hash: the buffer is as short as an update.
- Md5Stream.HashParts: each part is as short as an update.
- Sha1Stream.CounterBytes: shifts and masks of the counter words are written as division and remainder.
- Crc.LocalCrc32: a negative length, for which the program does nothing, is the empty buffer. The tables are functions of the index.
- JzMem.Allocator.Alloc: one mapped device of at most 16 MB that starts on a page and whose addresses do not wrap; masks are written as division and remainder; obtaining and mapping the device is left out, as are sizes that are not positive.
- RingBuffer.Buffer.Push: allocation succeeds and sizes are not negative.

Not modelled:

- The other list operations of `include/utils/list.h` (replace, move to front, the remaining splice variants) and its hash lists: easy members only.
- `local_crc7`: a table look-up like the others, with a 7-bit register.
- `SHA1UpdateBe32`: an update of four bytes.
- `thread_set_priority`, the error paths of `thread_pool_init`, `dump_work_queue` and all logging.
- The requests, confirmations and threads of `zigbee_manager.c`: a late confirmation can match the next command.
- Initialisation, start, stop and deinitialisation of the alarm service, and the kernel interface behind it.
- The registries of the netlink, input and timer managers and the fingerprint id file.
- Drivers and wrappers over ioctl, sysfs, ALSA, V4L2, MTD, serial and graphics code.
