# A verified model of mavlink-router

mavlink-router is a single-threaded event loop that reads MAVLink frames from serial, UDP and TCP
endpoints, learns which systems are reachable where, and forwards each message to the endpoints that
should get it, within per-message rate limits. It also records flight logs. This project models its state
machines in Dafny and proves what each of them promises over every input and every run.

`dafny verify dfyconfig.toml` checks everything.

| file | what it models |
|---|---|
| `Bytes.dfy` | byte sequences, `memmove` and `memcpy` |
| `Wire.dfy` | the MAVLink 1 and 2 wire format and a pure parser over a whole stream |
| `Framer.dfy` | the receive buffer: `read_msg`, `handle_read` and the read statistics |
| `Routing.dfy` | `accept_msg` against the routing and filtering rules |
| `Throttling.dfy` | the rate limiter and its bound |
| `ThrottleCache.dfy` | bounded per-id FIFO queues |
| `Shaping.dfy` | throttle table, cache and drop counters together, with the account of every message |
| `Endpoints.dfy` | the endpoint object: learning, sending, caching, resending |
| `Groups.dfy` | endpoint groups |
| `Timeouts.dfy` | the linked list of timers |
| `ResendTimer.dfy` | the resend timer's delay |
| `Mainloop.dfy` | `route_msg`, its re-entrancy, and the resend timer across endpoints |
| `Transmit.dfy` | UART and TCP transmit buffers |
| `Coalescing.dfy` | the UDP transmit buffer with its coalescing timer |
| `UlogSequence.dfy` | 16-bit packet sequence numbers |
| `Ulog.dfy` | the ULog reassembler |
| `Dedup.dfy` | message de-duplication |
| `BinLog.dfy` | the block log |
| `OldLogs.dfy` | deletion of old logs and the index of a new one |

The kernel is a constant but arbitrary function from the number of a call to its answer: a read returns
any non-empty piece of the stream, nothing, or an error; a write takes any part of what it is offered, or
fails; a timer may fail to be created. Each object counts its calls, and what is proved holds for every such
function. Where a result depends on an answer, the contract names the function and the number of the call,
so no method can make up an answer the kernel did not give. The clock advances by any amount.
The generated message table and the checksum are parameters (`Wire.Dialect`), and so are the hash values
`Dedup` works on. Fields that exist only for the proofs are `ghost`: they record what arrived, what was
handed on, and what became of the rest, so that an invariant can compare the code's state with the whole
history. An object's `Valid()` holds after construction and after every method, so it holds in every
reachable state; the methods named `Run` or `Session` say this once more for whole runs.

## What the proofs show about the code

Most properties hold as one would expect. These do not, and the project states exactly when they hold:

- De-duplication: a discarded copy does not restart the period, although `src/dedup.h:29` and
  `README.md:254` say so. `Dedup.RestartsIffNoLongBurst` gives the runs on which it makes no difference.
- Lost sequence numbers: the count is one short when the 8-bit counter wrapped (`Framer.LostIsDistance`). A
  loss also goes uncounted when the 32-bit total has just passed a multiple of 2^32, because it then looks like
  that of a first frame (`Framer.LossesAreExactIff`, `Framer.LossIsHidden`).
- Wrong checksums: one readable event delivers every complete frame exactly if no acceptable frame follows
  the first rejected one; the others wait for the next event (`Framer.RxFramer.HandleRead`,
  `Framer.GoodFrameLeftBehind`).
- ULog sequence numbers: more than 32766 below or 32767 above the expected number the 16-bit decision can
  be wrong (`UlogSequence.WindowIsExact`).
- ULog short writes: if more than 1024 bytes of a message are left over, the code writes the message again
  from its start (`Ulog.Reassembler.TearOne`). It takes a message of more than 1025 bytes. Once a loss-free
  log has been written out, its file is well framed exactly if that never happened (`Ulog.Session`).
- ULog buffer: it overflows only if some write fell short or a message is longer than 1799 bytes
  (`Ulog.Session`).
- Block log: offsets are computed in 32 bits and wrap after block 21474836 (`BinLog.SeekOffsetExact`). A
  NACK carries the new block's number, not a missing one (`BinLog.NacksNameTheWrongBlock`).
- Old logs: when free space cannot be measured and a file limit is set, the code asks for one byte more
  than the configured minimum (`OldLogs.UnmeasurableSpaceIsShort`).
- Groups: an endpoint added at run time knows what its group has seen exactly if that is nothing
  (`Groups.LinkNewcomer`). A source the arrival endpoint knows already is not passed on (`Groups.Learn`), so a
  message can still reach such a latecomer, but never an older member or one that joined in time
  (`Mainloop.Run`).
- TCP: a connection that breaks in the flush that makes room does so quietly. `write_msg` reports success, the
  message waits for the reconnect, and no hang-up is flagged (`Transmit.TcpPort.WriteMsg`,
  `Mainloop.Loop.Deliver`).
- Un-throttling an id at run time lets new messages overtake its queue
  (`Routing.OvertakesIffUnthrottled`).
- UART: a kernel write of 0 bytes leaves waiting bytes behind a disarmed descriptor; the comment at
  `src/endpoint.cpp:232-234` expects a busy loop instead (`Transmit.UartPort.WritableEvent`).
- UDP: a socket that is busy when the coalescing timer fires strands what waits, because the timer
  ignores the result of the flush (`Coalescing.UdpPort.TimerEvent`).
- The rate limit of one message per period lets three through at one instant after a pause
  (`Throttling.SpanBound`, `Throttling.BoundIsTight`). A resend taken by a TCP connection that breaks quietly
  is not charged to the limit and comes on top (`Endpoints.Endpoint.RateIsBounded`). A run with any number of
  such resends stays within the limit exactly if each of them has room: the due time, or the time it starts
  afresh from, is as far ahead of everything the link took before as if the resend had been charged
  (`Throttling.RunIsHarmlessIff`, `Endpoints.Endpoint.RoomyRateIsBounded`). Counting only charged messages is
  not enough (`Throttling.UnchargedExample`, `Throttling.RepeatedExample`).

## Model

| member | source | states |
|---|---|---|
| Wire.FrameLen | src/endpoint.h:119-154 | a frame is longer than its header and never longer than 280 bytes |
| Wire.ParseIsLossless | src/endpoint.cpp:333-408 | the items found in a stream, followed by its undecided tail, are the stream byte for byte |
| Wire.ItemsAreWellFormed | src/endpoint.cpp:333-408 | frames are exactly as long as their headers say and no magic byte is ever skipped |
| Wire.RestIsShort | src/endpoint.cpp:366-408 | the undecided tail is shorter than 280 bytes, starts at a magic byte, and holds nothing decidable |
| Wire.ParseResumes | src/endpoint.cpp:292-321 | parsing a stream cut anywhere equals parsing the parts, carrying over only the undecided tail |
| Wire.SkipNoise | src/endpoint.cpp:326-361 | bytes before the next magic byte are skipped one by one and change nothing else |
| Wire.StreamRoundTrip | src/endpoint.cpp:278-483 | any sequence of serialised packets with non-magic noise between them is recovered frame by frame, with nothing left over |
| Wire.FieldsRoundTrip | src/endpoint.cpp:366-403 | id, sequence number, source and payload of a serialised packet read back as they were, for both versions, signed or not; an unknown id keeps its number and has no target |
| Wire.TargetsRoundTrip | src/endpoint.cpp:434-459 | the target system and component of a known message come from its full payload even if zeros were trimmed off; without a target field they are -1 |
| Wire.ChecksumDecides | src/endpoint.cpp:416-429 | a frame passes exactly if its id is unknown or it carries the checksum a conforming sender computes |
| Wire.TrimmingIsUndone | src/endpoint.cpp:924-940 | padding a payload by the computed number of zeros restores the untrimmed payload |
| Wire.NothingToPad | src/endpoint.cpp:924-940 | nothing is padded in MAVLink 1 or if the payload is as long as the table says or longer |
| Wire.TargetSurvivesTrimming | src/endpoint.cpp:440-455 | a target field reads the same from a trimmed payload as from the full one |
| Framer.RxFramer.RoomRemains | src/endpoint.cpp:313-321 | whenever the next step is a read, fewer than 280 bytes are buffered, so there is room |
| Framer.RxFramer.DropLastPacket | src/endpoint.cpp:292-311 | moving the left-over bytes to the front keeps the split of the stream into consumed items and pending bytes |
| Framer.RxFramer.Fill | src/endpoint.cpp:313-321 | what the kernel hands out next is appended to the pending bytes and to the stream received; without data nothing changes |
| Framer.RxFramer.Resync | src/endpoint.cpp:323-361 | after resynchronising, the buffer is empty or starts at a magic byte, and no frame was lost |
| Framer.RxFramer.Extract | src/endpoint.cpp:363-482 | a complete frame at the front is consumed and, if acceptable, delivered with the right fields; otherwise the buffer is undecided or the frame had a wrong checksum |
| Framer.RxFramer.Count | src/endpoint.cpp:405-477 | the statistics are updated as the fold over all frames says, whose meaning the lemmas below give, and the frame is rejected exactly if its checksum is wrong |
| Framer.RxFramer.ReadMsg | src/endpoint.cpp:278-483 | every call keeps the buffer a correct split of the stream and delivers the next acceptable frame; it reads exactly if nothing is left behind a packet, receives exactly what the kernel hands out then, and fails exactly if the descriptor is invalid or that read failed |
| Framer.RxFramer.HandleRead | src/endpoint.cpp:238-276 | one readable event terminates, reads once exactly if nothing was left behind a packet, and takes what it finds in the pending and newly read bytes exactly up to the first frame with a wrong checksum; so it delivers all frames received exactly if no acceptable one follows that |
| Framer.AllDeliveredIff | src/endpoint.cpp:243-247 | stopping at the first bad frame delivers the same frames as going on exactly if no acceptable frame follows it |
| Framer.GoodFrameLeftBehind | src/endpoint.cpp:243-247 | two frames of a known id in one read, the first with a wrong checksum: the second stays behind |
| Framer.RxFramer.DeliveredIsPrefix | src/endpoint.cpp:278-483 | what was delivered is a prefix of what the parser finds in the whole stream, and all of it once nothing is left behind a packet |
| Framer.RxFramer.StatsAreRight | src/endpoint.cpp:405-477 | in every reachable state the read statistics are those counts of the frames delivered, rejected and missing so far |
| Framer.Session | src/endpoint.cpp:238-483 | for every stream, every cutting into reads and any number of events, the delivered frames are a prefix of the reference parser's, and equal to it once drained |
| Framer.TotalsBalance | src/endpoint.h:353-361 | the total is always handled + checksum errors + sequence losses, modulo 2^32 |
| Framer.BytesBalance | src/endpoint.cpp:410-432 | handled, rejected and skipped bytes account for every byte taken off the stream, modulo 2^64 |
| Framer.HandledCountsDelivered | src/endpoint.cpp:431-432 | the handled counter counts the delivered frames, modulo 2^32 |
| Framer.StatsAreCounts | src/endpoint.cpp:410-477 | for every sequence of items, the counters of rejected frames and bytes and of delivered frames count just those, and the number expected next is that of the last delivered frame plus one modulo 256, or 0 before the first |
| Framer.LossesAreGaps | src/endpoint.cpp:461-477 | the loss counter is, modulo 2^32, the sum of what is missing between neighbouring delivered frames, and before the first unless it is the first frame of all, less what a passing of the total through 2^32 hides; and the total is the number of frames plus that |
| Framer.LossesAreExactIff | src/endpoint.cpp:462-474 | so that sum is counted right exactly if the hidden losses amount to a multiple of 2^32, and always while the total is below that |
| Framer.SuccessiveLoseNothing | src/endpoint.cpp:461-477 | however many frames come in, if the delivered numbers follow one another no loss is counted and the total is the number of frames |
| Framer.LossIsHidden | src/endpoint.cpp:463-464 | with a total of 2^32 - 1, a frame whose number is not the expected one adds no loss |
| Framer.NumbersOfDelivered | src/endpoint.cpp:366-403 | the numbers these lemmas speak of are those of the delivered frames, one by one |
| Framer.LostIsDistance | src/endpoint.cpp:461-477 | the loss count is the distance between sequence numbers exactly if the counter did not wrap; across a wrap it is one short |
| Routing.InSystems | src/endpoint.cpp:516-525 | the id list answers membership of a system/component pair |
| Routing.SysInSystems | src/endpoint.cpp:506-514 | the id list answers whether any component of a system is known |
| Routing.TargetIsReached | src/endpoint.cpp:586-602 | the target test is the broadcast rule: broadcast and untargeted messages reach everyone, others a connected target, and a sniffer sees all |
| Routing.AcceptFollowsRules | src/endpoint.cpp:527-621 | each outcome of the decision occurs exactly when the routing rules, filters and throttle tables say |
| Routing.IncomingFollowsRules | src/endpoint.cpp:815-855 | incoming filters follow the same rules, except that a message without an id is still held against the component and system lists |
| Routing.OvertakesIffUnthrottled | src/endpoint.cpp:604-618 | a routed message bypasses a non-empty queue of its id exactly if the id is no longer throttled |
| Throttling.NextStaysClose | src/endpoint.cpp:647-665 | after a due message the next due time is within one period of now on either side, and at least one period later than before |
| Throttling.UpdateMoves | src/endpoint.cpp:658-664 | an update keeps the period and moves the due time on by exactly one; if that was passed by more than two periods, nothing is due for a whole period from now |
| Throttling.SendKeepsPace | src/endpoint.cpp:630-665 | every send found due keeps the spacing of all earlier ones |
| Throttling.UpdateKeepsPace | src/mainloop.cpp:186-193 | moving the due time for a message the link refused keeps the spacing too |
| Throttling.ChargedKeepsPace | src/endpoint.cpp:630-665 | a send that moves the due time keeps the spacing of all earlier sends, whether those moved it or not |
| Throttling.RoomKeepsPace | src/endpoint.cpp:717-719 | a send that does not move it keeps the spacing of all earlier sends if it has room against them |
| Throttling.SpanBound | src/endpoint.cpp:630-665 | any k consecutive sends span at least k - 3 periods |
| Throttling.WindowBound | src/endpoint.cpp:630-665 | a window of length w holds at most w / period + 3 sends |
| Throttling.FastestIsAllowed | src/endpoint.cpp:630-665 | a run with three sends at once and then one per period passes every check |
| Throttling.BoundIsTight | src/endpoint.cpp:658-664 | that run meets the bound with equality for every number of sends |
| Throttling.UnchargedIsHarmlessIff | src/endpoint.cpp:717-719 | after any paced history of sends, charged or not, one that does not move the due time leaves k sends k - 3 periods apart in every continuation exactly if the due time, or the time it starts afresh from, is as far ahead of all of them as if it had been moved |
| Throttling.RunIsHarmlessIff | src/endpoint.cpp:698-740 | a run in which any sends may leave the due time where it is keeps the rate bound at every point, whatever charged sends come next, exactly if each of those had room against all sends before it |
| Throttling.UnchargedExample | src/endpoint.cpp:717-719 | period 10, due for 15: an uncharged send and three more 5 later make four sends that span 5 |
| Throttling.RepeatedExample | src/endpoint.cpp:698-740 | period 10: four uncharged sends, each with room against the charged ones alone, among three charged ones make seven sends that span 25 instead of 40 |
| ThrottleCache.TotalWithout | src/endpoint.h:373-380 | the total over all queues does not depend on the order of adding them up |
| ThrottleCache.CacheSize | src/endpoint.h:373-380 | the accumulating loop computes the total over all queues |
| ThrottleCache.FifoEnqueue | src/endpoint.cpp:681-696 | a queued, dropped or lost arrival keeps the queue first in, first out, with every missing arrival counted |
| ThrottleCache.FifoDequeue | src/endpoint.cpp:706-732 | handing over the front message keeps the order of arrival |
| ThrottleCache.FifoDirect | src/endpoint.cpp:604-620 | a message sent directly overtakes nothing, because nothing is queued |
| ThrottleCache.FifoClear | src/endpoint.cpp:766-783 | dropping the cache with the connection keeps the account of what was handed over |
| Shaping.EnqueueIsSound | src/endpoint.cpp:681-696 | caching below the limit keeps the total at most 2048 and the account of every id |
| Shaping.CacheDropIsSound | src/endpoint.cpp:683-687 | dropping the newest message when the cache is full is counted and disturbs no queue |
| Shaping.SendIsSound | src/endpoint.cpp:714-732 | a send or a mere update keeps the rate account of every throttled id |
| Shaping.BumpMovesOn | src/endpoint.cpp:723-732 | a resend moves the due time of its id in the same way and changes nothing else |
| Shaping.PopIsSound | src/endpoint.cpp:731-732 | popping a message that was handed over keeps all accounts |
| Shaping.EraseIsSound | src/endpoint.cpp:785-790 | erasing a drained queue keeps all accounts |
| Shaping.DirectIsSound | src/mainloop.cpp:178-196 | a direct write keeps all accounts if nothing of its id is queued |
| Shaping.LinkDropIsSound | src/mainloop.cpp:153-157 | a message refused with -ENOBUFS on the direct path is counted and overtakes nothing |
| Shaping.LossIsSound | src/endpoint.cpp:2234-2242 | a message lost with its connection is accounted for and disturbs no queue |
| Shaping.WriteIsSound | src/mainloop.cpp:178-196 | a whole direct write, taken, refused or lost, keeps the bounds, the rate and the order of every id |
| Shaping.WriteSets | src/mainloop.cpp:178-196 | a direct write counts a refusal, moves the due time of its id on by one period or lets it start afresh after two, and changes nothing else |
| Shaping.WriteIsFaithful | src/mainloop.cpp:178-196 | after it the accounts still agree with what the endpoint was offered and what its link took, and when |
| Shaping.AttemptIsFaithful | src/endpoint.cpp:713-732 | what the account calls handed over is exactly what the link took, in order; what it calls sent is what the due time was moved for, between the clock readings around the write |
| Shaping.StretchIsBounded | src/endpoint.cpp:630-665 | of a stretch of the record within a time w, the link took at most w / period + 3 of one id, plus those the due time was not moved for |
| Shaping.AttemptIsSpacious | src/endpoint.cpp:713-732 | with every attempt, charged, uncharged or refused, the record stays such that everything the link took is spaced as the rate asks if what was not charged had room |
| Shaping.RoomyStretchIsBounded | src/endpoint.cpp:630-665 | if it had, a stretch of the record within a time w holds at most w / period + 3 messages of one id that the link took, charged or not |
| Shaping.ArrivalIsFaithful | src/endpoint.cpp:681-696 | what the account calls arrived is exactly what the endpoint was offered |
| Shaping.ClearIsSound | src/endpoint.cpp:766-783 | clearing the cache keeps all accounts |
| Shaping.StaysTorn | src/endpoint.cpp:766-783 | an account in which nothing more was cleared stays one in which messages are cleared only by a teardown since the id is followed; one in which something was needs one more teardown |
| Shaping.HandedMore | src/endpoint.cpp:706-740 | if what left the queues is in each of two stretches what the link took, in order, it is in both together |
| Shaping.SetRateIsSound | src/endpoint.h:310-317 | setting a rate keeps all queues and starts the rate account of that id afresh, for the period asked for |
| Shaping.RerateSets | src/endpoint.h:310-317 | a rate setting gives the id the period asked for, with the due time it had, or from now on if it had none; a rate of 0 removes the entry; every other entry, the cache and the counters stay |
| Shaping.UnthrottleIsSound | src/endpoint.h:310-317 | un-throttling an id keeps the accounts of all others |
| Shaping.NextResendDeadline | src/endpoint.cpp:742-758 | the result is the earliest deadline of the cached queues: at every time, it has come exactly if some cached queue is un-throttled or due; and there is none exactly if nothing is cached |
| Endpoints.Endpoint.constructor | src/logendpoint.cpp:61-81 | a new endpoint has the filters, ids and link it was given, is open, throttles and caches nothing, and knows no address, except that a log endpoint knows its own, 2/0 |
| Endpoints.Endpoint.AcceptIsRouting | src/endpoint.cpp:1837-1852 | an endpoint serves a message exactly if the routing rules select it and its link is up, which for UDP means a known peer and not receive-only and for TCP a descriptor; and never one whose source it knows |
| Endpoints.Endpoint.AcceptDecides | src/endpoint.cpp:604-643 | of the messages it serves, it discards exactly those of a throttled id that come before the due time and are not to be cached, caches those to be cached that come early or behind a queue of their id, and accepts all others |
| Endpoints.Endpoint.AcceptRefuses | src/endpoint.cpp:544-601 | a message it does not serve is filtered exactly on a receive-only endpoint, or if the source is not known here and a filter forbids it on an open link; otherwise it is rejected |
| Endpoints.Endpoint.AcceptChecks | src/endpoint.cpp:604-620 | an accepted message is due and nothing of its id is queued; a cached one belongs to a throttled, cacheable id |
| Endpoints.Endpoint.FinishWrite | src/mainloop.cpp:151-193 | a refusal is counted and the due time moves in every case; all accounts still agree with the endpoint's record |
| Endpoints.Endpoint.SendDirect | src/mainloop.cpp:178-196 | the direct path makes exactly one write attempt and returns the link's next answer; a connection that breaks in it, whatever it returns, closes or invalidates the endpoint, only that counts as a teardown, and the throttle state follows from the result |
| Endpoints.Endpoint.CacheMsg | src/endpoint.cpp:681-696 | the message is appended to its queue, or dropped and counted exactly if 2048 messages are cached; nothing is cleared |
| Endpoints.Endpoint.ResendOne | src/endpoint.cpp:706-737 | exactly the front message is offered to the link; it stays queued exactly if the link refused it or closed; if the link took it while closing, it is handed over but not charged; an error or a closed endpoint stops the drain |
| Endpoints.Endpoint.ResendQueuedMsgs | src/endpoint.cpp:698-740 | terminates; what left the queue is exactly what the link took, in order, and nothing is cleared; only messages that are not due are left unless the link's last answer failed or closed the endpoint; result, descriptor and validity follow from the link's answers |
| Endpoints.Endpoint.DrainQueue | src/endpoint.cpp:772-790 | what left the queues is exactly what the link took, in order; a drained queue is erased; the rest is cleared, in one teardown, exactly if the link's last answer closed the endpoint; no other queue disappears or gains a message |
| Endpoints.Endpoint.ResendCachedMsgs | src/endpoint.cpp:760-808 | what left the queues is exactly what the link took, in order; the rest is cleared, in one teardown, exactly if the endpoint was closed or the link's last answer closed it; on an open endpoint nothing is cleared and each queue keeps a suffix; unless that answer failed, everything due at the start is gone; a hang-up is reported exactly if it was -EPIPE |
| Endpoints.Endpoint.SetMessageThrottling | src/endpoint.h:310-317 | the id has the period asked for, with the due time it had or from now on, or no entry for rate 0; every other entry is unchanged; its rate account restarts, its order is followed from then on if nothing of it is queued, and every other id is still followed |
| Endpoints.Endpoint.RateIsBounded | src/endpoint.cpp:630-665 | in every reachable state, of any stretch of attempts within a time w the link was handed at most w / p + 3 of a throttled id, where p is the period last asked for, direct and resent together, plus those a closing connection took without moving the due time |
| Endpoints.Endpoint.RoomyRateIsBounded | src/endpoint.cpp:630-665 | in every reachable state, if all of those had room, the plain w / p + 3 bounds all that the link was handed |
| Endpoints.Endpoint.ClosingResendIsHarmlessIff | src/endpoint.cpp:714-732 | in every reachable state in which they had, one more such resend leaves everything the link took within the bound, whatever charged sends follow, exactly if it has room against all of that |
| Endpoints.Endpoint.CacheIsFifo | src/endpoint.cpp:681-808 | in every reachable state, what the link took of a cached id, then its queue, is a subsequence of what was offered; every missing message is a drop counted since or was cleared in a teardown since, and without a teardown the drops account for all of them; at most 2048 are cached |
| Endpoints.Endpoint.AddSysCompId | src/endpoint.cpp:485-504 | the recursive walk over a cyclic group graph terminates; whoever gets the address appended passes it to all its members, stays in the group, and nobody gets it twice |
| Endpoints.Endpoint.LinkGroupMember | src/endpoint.cpp:857-866 | a member is added exactly if both are in the same named group |
| Endpoints.Endpoint.UnlinkGroupMember | src/endpoint.cpp:868-875 | exactly the members of that name are removed, the others stay in order |
| Groups.LinkOne | src/mainloop.cpp:688-696 | an endpoint lists exactly the other endpoints of its group |
| Groups.LinkGroups | src/mainloop.cpp:686-697 | after start-up every endpoint lists exactly the other endpoints of its group |
| Groups.Learn | src/endpoint.cpp:250-271 | if a source is new to the endpoint it was seen on, all members of its group that are not cut off get it, otherwise nothing changes; nobody else gets it; older members still know what younger ones do, and those that joined in time what the group ever saw |
| Groups.GroupKnowsWhatItSaw | src/endpoint.cpp:485-504 | an endpoint that was there at start-up, or joined before its group had seen anything, knows exactly what its group has ever seen, whoever was removed since, unless its own name was taken off the group's lists |
| Groups.LinkBoth | src/mainloop.cpp:415-424 | the newcomer and exactly the members of its group list each other |
| Groups.LinkNewcomer | src/mainloop.cpp:411-424 | an endpoint added at run time is linked and the group invariant survives; it knows exactly what its group has ever seen if and only if that is nothing |
| Groups.FewerInUse | src/mainloop.cpp:249-266 | dropping endpoints from use keeps the remaining groups linked and what they know |
| Timeouts.SplitIsExact | src/mainloop.cpp:921-931 | splitting milliseconds into seconds and nanoseconds loses nothing, is a valid setting, and disarms only for 0 |
| Timeouts.RemovedOnce | src/mainloop.cpp:933-959 | kept and freed nodes together are the list, each node once |
| Timeouts.TimeoutList.AddTimeout | src/mainloop.cpp:887-914 | exactly if the kernel can create the timer, a new node goes to the head of an acyclic, duplicate-free list; otherwise nothing changes |
| Timeouts.TimeoutList.UnlinkAfter | src/mainloop.cpp:948-952 | exactly the node behind `prev` is unlinked and freed, and the list stays chained |
| Timeouts.TimeoutList.DelTimeouts | src/mainloop.cpp:933-959 | terminates, leaves exactly the unflagged nodes in order, and frees each flagged node once |
| ResendTimer.DelayArms | src/mainloop.cpp:854-864 | the timer is never set to the value that would disarm it, nor beyond the 32-bit clamp; for a deadline that has passed it is set to 10 ms |
| ResendTimer.DelayMeetsDeadline | src/mainloop.cpp:857-864 | the timer does not fire before a future deadline exactly if that is below the 32-bit clamp, and then less than 1 ms after it |
| ResendTimer.ExpiresWhenDue | src/mainloop.cpp:851-864 | a timer set for a deadline expires in 10 ms if that has come, at the clamp if it comes later than that, and otherwise when it has come and less than 1 ms later |
| Mainloop.Loop.FindEarliest | src/mainloop.cpp:837-849 | finds the earliest deadline over all queues of all endpoints, and none exactly if nothing is cached |
| Mainloop.Loop.RescheduleResend | src/mainloop.cpp:835-867 | a timer is set exactly if anything is cached; it expires in 10 ms if some cached queue is due, and otherwise when the first of them is due and less than 1 ms later, unless that is beyond the 32-bit clamp |
| Mainloop.Loop.ScheduleResend | src/mainloop.cpp:818-833 | afterwards a timer is scheduled exactly if one was or one could be created, which is tried once exactly if none was; it is armed, in the timer list, and expires when some cached queue is due, less than 1 ms late, in 10 ms if one is due already, or at the clamp; a failure is recorded exactly if that creation failed |
| Mainloop.Loop.DeliveryIsFine | src/endpoint.cpp:544-548 | a message taken by an endpoint that does not know its sender did not come in on it, nor on a group member it would know of, and a log endpoint's message never goes to a log endpoint |
| Mainloop.Loop.Deliver | src/mainloop.cpp:178-196 | one write attempt of exactly this message, with the link's next answer and the state it leads to; a hang-up is flagged exactly if the write returned -EPIPE, so not when the connection broke quietly |
| Mainloop.Loop.WriteTo | src/mainloop.cpp:178-196 | one delivery at this depth, to exactly this endpoint; nested deliveries only from a log endpoint and one level deeper; endpoints no delivery reached are unchanged |
| Mainloop.Loop.LogWrite | src/logendpoint.cpp:83-103 | whatever a log endpoint sends from inside its write is routed at depth two and never reaches a log endpoint |
| Mainloop.Loop.CacheTo | src/mainloop.cpp:219-232 | the message is queued, or counted as dropped exactly if the cache is full; afterwards the timer is scheduled exactly if one was or could be created, and expires as for ScheduleResend |
| Mainloop.Loop.RouteTo | src/mainloop.cpp:174-238 | the endpoint's answer is accept_msg's, so it serves the message exactly if the rules select it and its link is up, and then accepts, caches or discards it as its throttle table and cache say; exactly what was accepted or cached is delivered |
| Mainloop.Loop.RouteMsg | src/mainloop.cpp:170-247 | terminates although it re-enters itself; the deliveries at its depth are exactly those accepted or cached, in endpoint order, each once; endpoints no nested message reached answer as in the state before, so they are served exactly if the rules select them and their link was up, and then accept, cache or discard the message as their throttle table and cache say; the target is unknown exactly if all reject |
| Mainloop.RoutedPastMore | src/mainloop.cpp:174-238 | one more turn of the loop extends what routing has done so far by exactly that endpoint's answer and deliveries |
| Mainloop.Loop.HandleMsg | src/endpoint.cpp:243-273 | a repeated message is only learned from, a filtered one is dropped, any other is learned from by the whole group and then routed to exactly the endpoints the rules select |
| Mainloop.Loop.LearnFrom | src/endpoint.cpp:255-270 | before a message is routed its source is known to the arrival endpoint and to every member of its group, if not cut off, that was there at start-up, joined in time or is older, so none of them takes it back |
| Mainloop.Loop.ResendAll | src/mainloop.cpp:873-875 | every endpoint is drained: what left its queues the link took, in order, the rest is cleared only if it was closed or the link's last answer closed it, and nothing due at the start is left unless that answer failed |
| Mainloop.Loop.ResendTimeout | src/mainloop.cpp:869-885 | drains every endpoint in this way and stays scheduled exactly if something is still cached, with the timer set as for RescheduleResend |
| Mainloop.Loop.FireResendTimer | src/timeout.cpp:31-45 | drains every endpoint in this way; the timer is set as for RescheduleResend, or flagged for removal when nothing is left to resend |
| Mainloop.Loop.AddTimer | src/mainloop.cpp:887-914 | timers added by others keep the whole invariant, whether they can be created or not |
| Mainloop.Loop.SweepTimers | src/mainloop.cpp:580-585 | removing flagged timers never removes the scheduled resend timer |
| Mainloop.Loop.ProcessTcpHangups | src/mainloop.cpp:249-266 | exactly the TCP endpoints that are not valid any more are dropped, the others stay in order, and the invariant survives |
| Mainloop.Loop.RemoveNamed | src/mainloop.cpp:436-455 | the name goes from every group list and the first endpoint of that name from the list; a second one of that name stays in use, cut off from its group; the invariant survives |
| Mainloop.Loop.HandleTcpConnection | src/mainloop.cpp:268-287 | a TCP client joins at the end of the list, without a group, filters, throttling or known addresses, no other endpoint changes, and the invariant survives |
| Mainloop.Loop.AddEndpoint | src/mainloop.cpp:350-424 | a name in use is refused; otherwise a UDP endpoint with the given filters joins at the end, linked to its group in both directions and knowing nothing, whatever the group has learned, and the invariant survives |
| Mainloop.Loop.SetThrottle | src/mainloop.cpp:456-482 | the rate changes on exactly the first endpoint of that name and the whole invariant survives |
| Mainloop.StartUp | src/mainloop.cpp:643-697 | freshly configured endpoints, once linked, satisfy the whole invariant, with nothing delivered or scheduled yet |
| Mainloop.Step | src/mainloop.cpp:546-585 | every event keeps the whole invariant and goes through exactly one of the steps below |
| Mainloop.StepReceive | src/endpoint.cpp:243-273 | a message received is learned from if it is repeated or allowed, and routed past all endpoints if it is new and allowed |
| Mainloop.StepLogSends | src/logendpoint.cpp:83-103 | a message a log endpoint sends by itself is routed past all endpoints |
| Mainloop.StepResendDue | src/mainloop.cpp:869-885 | when the resend timer expires every endpoint is drained, and the timer stays exactly if something is still cached |
| Mainloop.StepAdmin | src/mainloop.cpp:249-482 | connections, hang-ups, the add, remove and throttle commands, link changes and timers have their effect and write nothing |
| Mainloop.Loop.InEveryState | src/mainloop.cpp:519-585 | what the invariant means for timers, looping, nesting and group knowledge |
| Mainloop.Run | src/mainloop.cpp:519-585 | after any sequence of events, each of which took place, whatever was added or removed: if every timer tried so far could be created, cached messages have a scheduled, armed timer in the list; no message went back to its arrival endpoint, to a start-up, punctual or older member of its group that is not cut off, or between log endpoints; routing nested at most two deep; and whoever joined its group in time and is not cut off knows exactly what the group has ever seen |
| Transmit.AcceptMore | src/endpoint.cpp:1268-1270 | an appended message extends the stream account by exactly itself |
| Transmit.OfferConserves | src/endpoint.cpp:1296-1313 | whatever part the kernel took, and after any error, what left and what waits are the accepted messages in order |
| Transmit.OfferIsBooked | src/endpoint.cpp:1296-1313 | the pieces booked as sent stay exactly what the kernel took of all it was offered, and nothing is thrown away without a hard error |
| Transmit.ThrowAway | src/endpoint.cpp:2268-2279 | bytes thrown away when a connection closes stay on account |
| Transmit.AllSentIsWire | src/endpoint.cpp:1296-1313 | with nothing thrown away, what left the buffer is what is on the wire |
| Transmit.UartPort.FlushPendingMsgs | src/endpoint.cpp:1284-1318 | the kernel is asked exactly if bytes wait on an open descriptor; the state and the result are those FlushLeaves describes |
| Transmit.UartPort.FlushLeaves | src/endpoint.cpp:1284-1318 | a flush leaves what the kernel's next answer did not take, all of it if that is EAGAIN or the descriptor is invalid, and nothing after another error; it returns the count or the error |
| Transmit.UartPort.WriteMsg | src/endpoint.cpp:1256-1282 | an invalid descriptor or a full buffer changes nothing; otherwise the message is accepted and offered with all before it, and a rest makes it return -EAGAIN |
| Transmit.UartPort.WriteAdmits | src/endpoint.cpp:1256-1282 | a message is refused, and changes nothing, exactly if the descriptor is invalid or it does not fit behind what waits in 8192 bytes; any other is accepted and offered with all before it; a part left over, and nothing else that succeeds, returns -EAGAIN |
| Transmit.UartPort.HandleCanWrite | src/endpoint.cpp:228-236 | EPOLLOUT is kept exactly if bytes are left over, the descriptor is valid and the kernel did not take zero bytes |
| Transmit.UartPort.RoutedWrite | src/mainloop.cpp:151-168 | waiting bytes stay watched, except exactly if the kernel took nothing while EPOLLOUT was not armed |
| Transmit.UartPort.WritableEvent | src/mainloop.cpp:554-558 | waiting bytes stay watched exactly if the kernel did not take zero bytes and the descriptor is valid |
| Transmit.UartPort.ResendQueue | src/endpoint.cpp:792-806 | the queue is written message by message up to the first error, keeping one refused with -ENOBUFS; waiting bytes stay watched unless the kernel took nothing |
| Transmit.UartPort.ResentInOrder | src/endpoint.cpp:792-806 | so every message off the queue was accepted, in order; one left on it was too only if the kernel itself answered ENOBUFS; it stops early only on an error |
| Transmit.UartPort.ResentStops | src/endpoint.cpp:706-737 | draining goes on after a success and stops at the first error, which keeps the message exactly if it is -ENOBUFS |
| Transmit.RunUart | src/mainloop.cpp:546-558 | over every run of writes, resends and writable events the state is what the events, one after the other, make of it; if the kernel gave no hard error the bytes it took and then the buffer are exactly the accepted messages, and otherwise what was thrown away fills the gaps; waiting bytes are never left unwatched unless the kernel once took zero bytes |
| Transmit.TcpPort.FlushPendingMsgs | src/endpoint.cpp:2197-2255 | as for UART, but a missing connection keeps the bytes quietly; a broken pipe, and nothing else, closes the descriptor or invalidates the endpoint |
| Transmit.TcpPort.FlushLeaves | src/endpoint.cpp:2197-2255 | what a flush leaves, returns and does to the descriptor, for every answer of the kernel |
| Transmit.TcpPort.WriteMsg | src/endpoint.cpp:2138-2187 | a first flush is made exactly if coalescing would overflow; the message is refused exactly if it does not fit after that; one that is listed as not to be delayed, too large to coalesce, or comes with coalescing off is offered at once behind all that waits, and any other waits with the timer running; a pipe that breaks in either flush closes or invalidates the endpoint, in the first one with the message left in the buffer and success returned |
| Transmit.TcpPort.Place | src/endpoint.cpp:2153-2184 | where an accepted message goes: to the kernel at once, or into the buffer with the timer running, exactly by its id, its size and the coalescing settings |
| Transmit.TcpPort.Close | src/endpoint.cpp:2268-2279 | closing empties the buffer and accounts for what is lost, if anything |
| Transmit.RunTcp | src/endpoint.cpp:2138-2279 | over every run the state is what the events, one after the other, make of it; if the kernel gave no hard error and no disconnect came over waiting bytes, the bytes it took and then the buffer are exactly the accepted messages, and otherwise what was thrown away fills the gaps; the buffer is never overfull |
| Coalescing.UdpPort.FlushPendingMsgs | src/endpoint.cpp:1715-1774 | the timer is stopped in every case, and the state and the result are those FlushLeaves describes |
| Coalescing.UdpPort.FlushLeaves | src/endpoint.cpp:1715-1774 | everything that waits leaves as one batch, sent exactly if the kernel's next answer took it and otherwise thrown away, unless the socket is invalid or that answer is EAGAIN; without a peer it is thrown away unasked |
| Coalescing.UdpPort.MakeRoom | src/endpoint.cpp:1664-1668 | what waits is flushed exactly if the message would take it over the limit; unless the kernel ever called the socket busy, the buffer then is empty or the message is within the limit of a running timer |
| Coalescing.UdpPort.IsPlaced | src/endpoint.cpp:1676-1686 | where an accepted message goes, exactly by its id, its size and the coalescing settings: out at once with all that waits, or behind them with the timer running |
| Coalescing.UdpPort.JoinsUpToLimit | src/endpoint.cpp:1664-1674 | a message joins what waits exactly up to the limit; beyond it what waits leaves first, unless the socket is invalid or busy |
| Coalescing.UdpPort.ScheduleWrite | src/endpoint.cpp:1707-1713 | the timer is started for the first message that waits and never restarted while it runs |
| Coalescing.UdpPort.WriteMsg | src/endpoint.cpp:1657-1705 | room is made first, exactly if the message would take what waits over the limit; a message that still does not fit is refused; one that is listed as not to be delayed, too large to coalesce, or comes with coalescing off leaves at once at the end of one batch, unless the socket is invalid or busy; any other waits behind all others with the timer running, which is started only if it does not run; without a peer nothing happens |
| Coalescing.UdpPort.TimerEvent | src/endpoint.cpp:1358-1364 | the timer makes one flush; afterwards bytes are left exactly if the socket is invalid or the kernel called it busy |
| Coalescing.UdpPort.AdvanceTo | src/endpoint.cpp:1707-1713 | as time passes what waits is flushed at the deadline exactly if that comes up, and otherwise nothing changes |
| Coalescing.UdpPort.WritableEvent | src/endpoint.cpp:228-236 | makes one flush; EPOLLOUT is kept exactly if the kernel called the socket busy, so exactly if bytes are left over on a valid socket |
| Coalescing.RunUdp | src/endpoint.cpp:1657-1774 | over every run the state is what the events, one after the other, make of it; the batches and then the waiting messages are exactly the accepted ones in order, and the batches sent are exactly the datagrams the kernel took; unless one of its answers was EAGAIN or the socket is invalid, each batch is within CoalesceBytes or a single message, none waits longer than CoalesceMs, and the timer runs exactly while one waits |
| UlogSequence.WindowIsExact | src/ulog.cpp:201-226 | for true numbers less than 65536 apart the 16-bit decision equals an unbounded counter's exactly within the window, and on four boundary distances that depend on which truncated number is larger |
| UlogSequence.JustOutsideWindow | src/ulog.cpp:209-221 | one step outside the window on either side the decision is wrong for some numbers |
| UlogSequence.RunRefines | src/ulog.cpp:201-226 | across any number of wraps every arrival within the window is decided as by an unbounded counter |
| UlogSequence.NoGapIsNoVerdict | src/ulog.cpp:209-225 | a run misses nothing exactly if no arrival is decided to be a gap |
| UlogSequence.AtMostOnceInOrder | src/ulog.cpp:201-226 | each packet is processed at most once and in increasing order |
| Ulog.LiveHead | src/ulog.cpp:329-335 | an aligned buffer starts with a message header whose size field is the size of the sender's next message |
| Ulog.FlushKeepsFraming | src/ulog.cpp:329-349 | moving the message at the head of the buffer to the file keeps the file a header and whole messages |
| Ulog.OversizedRest | src/ulog.cpp:351-361 | the start of a message whose rest does not fit is in the file while the message stays in the buffer, and all but the file's framing is kept |
| Ulog.OversizedBreaksFraming | src/ulog.cpp:351-361 | when all of the sender's stream has come in and been written out, a file with part of a message in it twice is too long to be whole messages |
| Ulog.TakeRealigned | src/ulog.cpp:293-308 | joining at a packet's first message offset lands on a message not recorded yet |
| Ulog.FlushConserves | src/ulog.cpp:313-371 | a flush loses and invents nothing, unless the rest of a short write did not fit; it leaves a complete message or a rest behind only if the kernel's last answer did not take all, and fails exactly if that was an error |
| Ulog.GapSaves | src/ulog.cpp:263-269 | at a gap only an incomplete message is lost, unless the kernel's last answer fell short or a rest did not fit |
| Ulog.LongHead | src/ulog.cpp:271-280 | live bytes that leave no room for a packet, without a complete message among them, are the start of a message of more than 1799 bytes |
| Ulog.NothingLeft | src/ulog.cpp:313-371 | when all of the sender's stream has come in and no complete message is left to write, nothing is left and the file is that stream |
| Ulog.Reassembler.LoggingSeq | src/ulog.cpp:201-226 | handles, drops and advances as the window decision says |
| Ulog.Reassembler.FlushPartial | src/ulog.cpp:315-327 | terminates and writes the rest of a short write as far as the kernel's answers go, keeping the file with the pending rest unchanged |
| Ulog.Reassembler.WriteMessage | src/ulog.cpp:337-367 | how the write ends follows from the kernel's answer: a complete or short write commits the whole message, a blocked one nothing, and one whose rest does not fit leaves exactly the part written |
| Ulog.Reassembler.CommitHead | src/ulog.cpp:337-367 | the message is taken off the buffer exactly if it was committed, the file gets exactly what the kernel's next answer took, and the framing is kept |
| Ulog.Reassembler.FlushOne | src/ulog.cpp:329-368 | one turn of the loop makes one write, of exactly the complete message at the head, if there is one; file, rest and buffer follow from the kernel's answer, and the framing is kept |
| Ulog.Reassembler.TearOne | src/ulog.cpp:351-368 | for any reachable buffer with a message over 1025 bytes at its head and a kernel that first takes too little of it, the file gets that part and then the whole message |
| Ulog.Reassembler.LoggingFlush | src/ulog.cpp:313-371 | terminates; the file, the rest of a short write and the buffer are what the kernel's answers make of them, rest first and then message by message up to the first answer that falls short; the framing and the stream position are kept; a rest that did not fit is recorded exactly if an answer left more than 1024 bytes of a message |
| Ulog.Reassembler.FlushBuffer | src/ulog.cpp:329-371 | its second loop writes message by message up to the first answer that falls short |
| Ulog.Reassembler.Restart | src/ulog.cpp:58-72 | a restart waits for a header with everything empty |
| Ulog.Reassembler.MakeRoom | src/ulog.cpp:271-289 | afterwards the new data fits behind the live bytes; they are given up, and that is recorded, exactly if both do not fit in 2048 bytes, which takes a write that fell short or a message of more than 1799 bytes |
| Ulog.Reassembler.JoinStream | src/ulog.cpp:291-301 | out of step, the data is dropped if the packet has no message start, and taken from that start otherwise |
| Ulog.Reassembler.Append | src/ulog.cpp:271-311 | in-order data is put behind the live bytes, or taken from the message start when out of step, and flushed; the framing is kept, and everything received unless the buffer overflows |
| Ulog.Reassembler.TakeHeader | src/ulog.cpp:255-260 | the file header is committed and the stream position is behind it |
| Ulog.Reassembler.HandleGap | src/ulog.cpp:263-269 | after a gap what is complete has been flushed, the rest is forgotten, and a message start is waited for |
| Ulog.Reassembler.LoggingDataProcess | src/ulog.cpp:228-311 | for every packet within the window the framing invariant holds and the expected number advances as the true one; file and buffers are what the packet and the kernel's answers make of them; framing is lost only by an answer that left more than 1024 bytes of a message; without a gap or overflow nothing is lost |
| Ulog.Session | src/ulog.cpp:201-371 | for any loss, duplication and reordering in the window, and any kernel, the file with its pending rest is the header and whole sender messages in order unless some answer left more than 1024 bytes of a message; in every run without a gap or overflow, duplicates included, it lacks only the live buffer, which holds a complete message only if the kernel's last answer fell short; once such a run is complete and written out, it is well framed exactly if every rest did fit; and if the kernel takes every write in full and no message exceeds 1799 bytes, a complete run without a gap leaves exactly the sender's stream in the file |
| Dedup.AdmittedAreApart | src/dedup.cpp:39-45 | admitted equal messages are more than a period apart |
| Dedup.SetDecides | src/dedup.cpp:52-59 | once expired entries are purged, the hash set answers as the full history does |
| Dedup.DropHead | src/dedup.cpp:40-45 | the hash to erase is always found, and set and queue still agree |
| Dedup.Deduplicator.Purge | src/dedup.cpp:40-45 | afterwards no queued entry is expired, and everything that still matters is queued |
| Dedup.Deduplicator.CheckPacket | src/dedup.cpp:34-62 | the answer is the one the full history of arrivals gives |
| Dedup.Run | src/dedup.cpp:88-99 | over every run each message is new exactly if no equal message was admitted within the period, or the period is 0 |
| Dedup.RestartsIffNoLongBurst | src/dedup.cpp:52-59 | the code follows the documented restarting rule on a run exactly if the run holds no burst of copies longer than the period |
| Dedup.LongBurstExample | src/dedup.cpp:52-59 | period 10, equal messages at 0, 8 and 16: the code admits the last one, the documented rule does not |
| BinLog.SeekOffsetExact | src/binlog.cpp:198-202 | the 32-bit offset is right exactly up to block 21474836 |
| BinLog.SeekOffsetWraps | src/binlog.cpp:198-202 | the next block lands inside block 0 |
| BinLog.StoreOne | src/binlog.cpp:204-215 | writing any prefix of a block at its offset keeps the file determined by the longest prefix of each block stored |
| BinLog.Confluent | src/binlog.cpp:194-219 | that determines the file: order, repetition and partial writes do not matter |
| BinLog.NacksNameTheWrongBlock | src/binlog.cpp:168-180 | the NACKs name the missing blocks exactly if none is missing |
| BinLog.BlockLog.SendAck | src/binlog.cpp:151-192 | the status messages sent and the last acknowledged number, which stays the maximum |
| BinLog.BlockLog.LoggingDataProcess | src/binlog.cpp:194-219 | whatever part was written is in the file; the block is acknowledged exactly after a full write; an error, and nothing else, starts a new file |
| BinLog.BlockLog.AckedIsStored | src/binlog.cpp:210-218 | every acknowledged block is in the file, whole and at its place, and the last acknowledged number is the maximum, as long as no block number was over 21474836 |
| BinLog.SameStoredSameFile | src/binlog.cpp:194-219 | two sessions that stored the same parts of the same blocks have equal files |
| OldLogs.BytesLeftIsDifference | src/logendpoint.cpp:213-250 | the 64-bit countdown is the plain difference while it fits |
| OldLogs.SpaceGoalExact | src/logendpoint.cpp:213-214 | the space goal is the true shortfall exactly if that fits 64 signed bits |
| OldLogs.UnmeasurableSpaceIsShort | src/logendpoint.cpp:152-155 | free space that could not be measured passes for more than any minimum below 2^64 - 1, so without a file limit nothing is deleted; but with one the goal asks for one byte more than the minimum, unless the subtraction wraps |
| OldLogs.GoalsAreEnough | src/logendpoint.cpp:213-230 | while the counts fit 64 bits, the two goals are met exactly if there is enough space and few enough files |
| OldLogs.DeleteInOrder | src/logendpoint.cpp:222-254 | whatever removals fail, files go in index order, none after both goals are met, and the loop ends with the goals met or every file tried |
| OldLogs.DeleteOldLogs | src/logendpoint.cpp:141-262 | the early exits try nothing; otherwise the loop runs to its goals; if removals succeed and the counts fit, exactly the shortest prefix of oldest files that is enough is deleted, or all of them |
| OldLogs.GetPrefix | src/logendpoint.cpp:264-278 | the new index exceeds every existing index other than the largest 32-bit number, and is the least such number |

## Left out

- Sockets, termios, epoll, timerfd and the file system: their calls have arbitrary outcomes; only what the router does with the outcomes is modelled.
- The checksum function, the generated message table and `std::hash` are parameters; nothing is claimed about collisions.
- Configuration and command parsing, statistics printing and the periodic reset of the drop counters: mostly string handling and output.
- The conversion of a rate to a period: a positive integer period is taken as given. Times are unbounded integers, so the sentinel for the latest possible time is a separate value.
- Endpoints.Endpoint.CacheIsFifo: follows an id from a time when nothing of it was queued, until it is un-throttled; `Routing.OvertakesIffUnthrottled` shows that the order is lost then.
- Endpoints.Endpoint.RateIsBounded: counts a message when the link is handed it, not when its bytes leave the transmit buffer.
- Mainloop.Run: says nothing about what an endpoint knows once a second endpoint of its name was removed, which takes it off the lists of its group.
- Mainloop.Loop.AddEndpoint: a newcomer starts with a known peer; that a UDP server has none before a client writes is left to a link change. A set-up that fails and the parsing of the command are not modelled.
- Mainloop.Loop.HandleTcpConnection: starts behind a successful `accept`.
- Mainloop.Loop.LogWrite: does not say when a log endpoint sends or what, only that everything it sends carries its own address.
- Framer.RxFramer.ReadMsg: does not model the baud rate search of UART endpoints, which only watches for the first message.
- Ulog.Reassembler.Restart: takes for granted that a new log file can be opened. `ULog::stop` is not modelled: its flush loop need not end while the file is busy.
- Ulog.Reassembler.LoggingDataProcess: assumes an honest sender (data, lengths and first message offsets cut from one stream), arrivals within the sequence window, and that nothing but packet 0 looks like a file header while one is awaited. The read past the end of the packet when the header is removed is not modelled, only its effect on the packet's own bytes.
- Transmit.RunTcp: does not claim that waiting bytes are watched; a TCP or UDP endpoint that was busy when its timer fired waits for the next message.
- Transmit.UartPort.ResendQueue: takes the messages of one queue as all due; when they are due is modelled in `Endpoints`.
- Coalescing.UdpPort.FlushPendingMsgs: takes for granted that the kernel sends a datagram whole or not at all.
- OldLogs.DeleteOldLogs: starts from the read-only logs already listed in index order; matching file names is not modelled.
- The telemetry log and the choice between log formats: they only forward.
