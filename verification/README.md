# Verified models of the gateway's core

This project models the hand-written state machines and data structures of the
fiber gateway (HTTP/2 and HTTP/1 framing, the event loop, its timers and locks, the
JSON layer and the script heap) in Dafny and proves what they are meant to
guarantee, for every input, every run and every interleaving. `dafny verify
dfyconfig.toml` checks all of it.

**HTTP/2 sending** (`Http2Send*.dfy`). Streams with pending entries, the two levels of
flow-control window, the wait list and the frame queue form a step system over
WINDOW_UPDATE, SETTINGS, sends, receptions and completions. Over every list of
events the windows are conserved and bounded (sections 6.9.1 and 6.9.2 of RFC 7540),
the entries are the accepted sends in order, the frames of an entry spell its payload
(section 6.10), and no stream is forgotten unless an empty payload was queued on it.
`Http2SendHistory` tells stream states, table, limits and accepted sends from the
events alone; by `Http2SendOrder` every stream carries its payloads in the order of the
sends.
`SendSide` is the same as an object whose loops are proved equal to those steps.

**HTTP/2 receiving** (`Http2Inbound*.dfy`, `Http2FrameReader.dfy`,
`Http2ReadBuffer.dfy`). The read loop handles a frame in the pieces the reads cut it
into. The reference takes one byte at a time and treats every frame as if it had come
whole: its stream table, header block, settings and control payloads. On each frame the
loop agrees with it exactly when no read ends where it must not, which is characterised
below; the bytes a frame gives its stream do not depend on the reads at all. What each
kind of frame does is stated from its fields as they are sent (`Http2InboundStreams.dfy`,
`Http2InboundControl.dfy`).

**The stream table** (`Http2StreamTable.dfy`), **the timer heap** (`TimerHeap.dfy`,
`TimerQueue.dfy`, nodes linked by pointers), **buffer chains** (`IoBufChain.dfy`) and
**chunked bodies** (`Chunked*.dfy`, section 4.1 of RFC 7230): the reader finishes exactly on
the texts of the grammar.

**Concurrency protocols** as interleavings of atomic steps: the event loop's
notification queue and wake-up (`EventLoopWakeup.dfy`, `EventLoopProgress.dfy`,
`MpscQueue.dfy`), the asynchronous mutex (`AsyncMutex.dfy`, `AsyncMutexHistory.dfy`, with
its linked list in `AsyncMutexList.dfy`) and waiters for a descriptor of another loop
(`FdWaiters.dfy`, `FdWaitersHistory.dfy`). Beside safety over every interleaving there is
progress: what was posted can be run, and every waiter can be brought to its end.

**JSON** (`Json*.dfy`; RFC 8259, and RFC 3629 for UTF-8). The streaming parser agrees
with the one-shot parser on every text however it is cut, both take exactly the texts of
the grammar for exactly what they mean (`JsonGrammar*.dfy`), and parsing what the generator
writes gives the value back. The generator's compact text is the shortest one there is, and
its other styles are that text formatted (`JsonShortest.dfy`, `JsonLayout.dfy`).

`Octets.dfy` holds the byte type and lists of bytes that these share.

**The script heap** (`ScriptHeap*.dfy`, `ScriptObject*.dfy`, `SlotLists.dfy`): what a
collection keeps, exactly, and the hash object as a list of members in insertion order
(with what its hash keeps apart, `KeyHashes.dfy`).

## Where the code does not do what it is meant to

Each of these has a lemma with a concrete failing input or an exact condition.

- An empty pending payload is dropped without a look at the entry behind it, so a stream can stall
  (`EmptyPayloadStalls`); scheduling leaves a stream stalled exactly when `EmptyHeadHidesWork` (`StallsExactlyWhen`).
- An empty payload sent with `end_stream` ends the stream on our side and completes, but no frame tells the peer
  (`EmptyEndIsNeverSent`); the END_STREAM of an accepted send gets a frame exactly when its payload is not empty and
  has been scheduled to its end (`EndStreamSentExactlyWhen`).
- `send_header` and `send_data` with `end_stream` on a half-closed (remote) stream move it to Closed before queueing,
  and queueing on a closed stream is refused: the last frame is never sent (`LastFrameIsRefused`, `QueuedExactlyWhen`).
- A header block sent with `end_stream` in more than one frame carries END_STREAM on its last CONTINUATION
  (`EndStreamOnLastFrame`), where section 6.2 of RFC 7540 wants it on HEADERS; the receiving side of this code does not
  look for it there (`HeaderBlock`). It is on HEADERS exactly when the block fits one frame (`HeadersEndExactlyWhen`,
  `SentHeadersEndExactlyWhen`, with the run `SplitHeadersDoNotEnd`).
- What a closed stream still has queued is served from the wait list only: off it, never again
  (`DeadStreamsStaySilent`, `ClosedStreamIsForgotten`); at its head, exactly when its own window lets the first entry
  through (`ClosedHeadServedExactlyWhen`).
- How a frame is cut into reads can change what it does. A HEADERS frame, or a DATA frame with END_STREAM, that its
  stream takes comes out as if it had arrived whole exactly when no read ends in its padding
  (`PaddingCutsMatterExactlyWhen`, `PaddedHeadersCut`, `PaddedDataCut`); a frame that its stream refuses resets the
  stream when it arrives whole, and stops the connection when it is cut (`RefusedDataCut`). The exact condition for
  every frame is `Harmless` (`CutsMatterExactlyWhen`). The bytes the frame gives its stream are the same for
  every cut (`BytesArriveHoweverCut`).
- A post from a deferred callback is not announced. The loop sleeps on queued work exactly when it is at the poller,
  no wake-up is written or under way, and one of its deferred callbacks has posted in this round
  (`AsleepExactlyWhen`, `DeferredPostSleeps`, `FirstRoundSleeps`); without such posts it never does (`NeverAsleep`).
- New heap objects carry the mark that the next collection treats as live, so they are not traced: an older object held
  only by a new one is freed although reachable (`YoungHolderLosesOld`). No reachable object is lost exactly when
  `YoungHoldNothingAlone` (`SafeExactlyWhen`), and no reference to a freed object is left exactly when
  `YoungRefsSurvive` (`NoDanglingExactlyWhen`, `Heap.Collect`).
- `utf8_write_bytes` and `utf8_write_utf16` report success for empty input whatever the length of the
  buffer (the exact condition of success is the contract of `WriteBytes` and `WriteUtf16`).

## Model

| member | source | states |
|---|---|---|
| `Http2SendProofs.Run` | src/http/Http2Stream.cpp:154-278 | after any list of events, empty payloads included, the whole invariant holds: windows conserved and in range, every frame the cut behind the earlier ones of its entry, wait list exact, no stream stalled unless an empty payload was queued on it |
| `Http2SendProofs.StepKeeps` | src/http/Http2Connection.cpp:589-751 | every single event keeps that invariant |
| `Http2SendProofs.ScheduleLoopKeeps` | src/http/Http2Stream.cpp:154-271 | the scheduling loop keeps it and stops only at a window, at an empty queue, after queueing a frame or after dropping an empty payload |
| `Http2SendProofs.ScheduleOwn` | src/http/Http2Stream.cpp:154-278 | a scheduled stream ends with a frame in flight, blocked by a window it is registered for, with nothing queued, or has had an empty payload |
| `Http2SendProofs.SendChunkWindows` | src/http/Http2Stream.cpp:247-250 | cutting a DATA frame charges both windows by its length and keeps them in range |
| `Http2SendProofs.SendChunkEntries` | src/http/Http2Stream.cpp:205-266 | the frames of every entry still concatenate to the scheduled part of its payload |
| `Http2SendProofs.SendChunkFrames` | src/http/Http2Stream.cpp:205-225 | every frame, old and new, carries the bytes and flags of its entry from where the earlier frames end |
| `Http2SendProofs.LoopPops` | src/http/Http2Stream.cpp:181-185 | dropping an empty payload touches no window and no frame and keeps the invariant |
| `Http2SendProofs.SendChunkHeaders` | src/http/Http2Stream.cpp:212-225 | header blocks stay one HEADERS followed only by its CONTINUATIONs |
| `Http2SendProofs.DrainKeeps` | src/http/Http2Connection.cpp:1321-1342 | serving the wait list keeps the invariant and either empties it or uses up the connection window |
| `Http2SendProofs.ConnWindowUpdateKeeps` | src/http/Http2Connection.cpp:607-623 | a connection WINDOW_UPDATE, accepted or refused, keeps the invariant |
| `Http2SendProofs.StreamWindowUpdateKeeps` | src/http/Http2Connection.cpp:625-637 | so does one on a stream |
| `Http2SendProofs.InitialWindowKeeps` | src/http/Http2Connection.cpp:723-751 | so does a change of the initial window: all streams move by the difference, or the value is refused and none does |
| `Http2SendProofs.SendDoneKeeps` | src/http/Http2Stream.cpp:477-501 | so does the successful completion of the oldest frame, and its stream is looked at again |
| `Http2SendProofs.SendKeeps` | src/http/Http2Stream.cpp:94-124 | so do send_header and send_data |
| `Http2SendProofs.EnqueueKeeps` | src/http/Http2Stream.cpp:39-61 | so does enqueue_pending |
| `Http2SendProofs.ReceiveKeeps` | src/http/Http2Stream.cpp:286-349 | so does receiving headers or data |
| `Http2SendHistory.WindowsAreConserved` | src/http/Http2Stream.cpp:171-192 | after any events, connection window = initial + accepted increments - DATA bytes scheduled, in 0..2^31-1; every stream window = the initial window the SETTINGS events leave + accepted increments - DATA bytes on the stream, in -2^31..2^31-1 |
| `Http2SendTheorems.CreditsAre` | src/http/Http2Connection.cpp:607-637 | the credit those equations speak of is the sum over the accepted WINDOW_UPDATE events |
| `Http2SendTheorems.NoStreamIsForgotten` | src/http/Http2Stream.cpp:452-475 | after any events that send no empty payload on it, a stream that is not closed and has something queued has a frame in flight, or a DATA head and no window of its own, or is on the wait list; and after any events a non-empty wait list means an empty connection window |
| `Http2SendTheorems.FramesSpellPayloads` | src/http/Http2Stream.cpp:420-433 | after any events the frames of an entry concatenate to the scheduled part of its payload; total = unscheduled + in flight + written; completed means all written, and for a payload that is not empty exactly that |
| `Http2SendHistory.FramesRespectPeer` | src/http/Http2Stream.cpp:187-225 | every event adds only non-empty frames within the limit of the last SETTINGS event in 16384..2^24-1, and leaves no header block open |
| `Http2SendHistory.EntriesAreAccepted` | src/http/Http2Stream.cpp:39-61 | the entries are, in order, exactly the sends that the events before them allow, with their payload, END_HEADERS for headers and END_STREAM for the end |
| `Http2SendHistory.SendQueuedExactlyWhen` | src/http/Http2Stream.cpp:94-124 | a send is queued exactly when its stream is in the table, we have not ended it, it carries headers or headers have passed, and it does not itself close the stream |
| `Http2SendHistory.StatesFollowEvents` | src/http/Http2Stream.cpp:280-362 | the state of every stream is the one of section 5.1 of RFC 7540 for what was sent and received on it, told from the events alone; so are the highest identifiers of either side |
| `Http2SendHistory.TableFollowsEvents` | src/http/Http2Connection.cpp:903-1003 | a stream is in the table exactly when the events have created it and no removal, refused reception or bad WINDOW_UPDATE has taken it out since |
| `Http2SendHistory.LimitsFollowEvents` | src/http/Http2Connection.cpp:693-721 | the frame size limit is the last valid one the peer announced |
| `Http2SendHistory.InitialFollowsEvents` | src/http/Http2Connection.cpp:723-751 | the initial window is the last one the peer announced that no stream refused |
| `Http2SendHistory.DoneFollowsEvents` | src/http/Http2Stream.cpp:477-501 | as many frames are done as completions came while one was in flight |
| `Http2SendTheorems.EndStreamOnLastFrame` | src/http/Http2Stream.cpp:205-225 | a frame carries END_STREAM exactly when its entry asks for it and the frame is the last of that entry; a HEADERS frame exactly when it carries the whole block |
| `Http2SendTheorems.EndStreamSentExactlyWhen` | src/http/Http2Stream.cpp:112-124 | some frame ends the stream for an entry exactly when the entry asks for it, is not empty and has been scheduled to its end |
| `Http2SendTheorems.DeadStreamsStaySilent` | src/http/Http2Stream.cpp:470-475 | once a stream is removed, or closed and off the wait list, no later event queues a frame on it or changes what it has queued |
| `Http2SendOrder.BytesGoOutInOrder` | src/http/Http2Stream.cpp:154-273 | after any events the frames of a stream carry its accepted payloads one after the other, without gap or overtaking, up to some byte; all of them once its queue is empty |
| `Http2SendOrder.WaitsInTurn` | src/http/Http2Stream.cpp:452-468 | a stream held up by the connection window alone goes to the end of the wait list or keeps its place; any other leaves it, and the others keep their order |
| `Http2SendLimits.StallsExactlyWhen` | src/http/Http2Stream.cpp:180-185 | scheduling a stream with nothing in flight leaves it stalled exactly when an exhausted entry at the head hides one that could be sent |
| `Http2SendLimits.EmptyPayloadStalls` | src/http/Http2Stream.cpp:181-185 | the run of seven events from a new connection after which sendable work stays queued on an open stream |
| `Http2SendLimits.QueuedExactlyWhen` | src/http/Http2Stream.cpp:112-124 | a payload is queued exactly when the stream is open, idle for headers, or half-closed (remote) for a payload that does not end it; a refused one changes neither frames nor windows |
| `Http2SendLimits.AnswerWithoutBody` | src/http/Http2Stream.cpp:94-110 | the run in which the peer sends a whole request and the answer is one header block without end_stream: it goes out in a HEADERS frame with END_HEADERS alone |
| `Http2SendLimits.FramesAreLongest` | src/http/Http2Stream.cpp:187-204 | the next frame carries as much of its entry as the frame limit and, for DATA, both windows allow, from where the entry stands; at most one DATA frame per call |
| `Http2SendLimits.NextFrameFlags` | src/http/Http2Stream.cpp:212-225 | the first frame of a header block is HEADERS with the first flags of its entry, the others CONTINUATION; the last frame of any entry carries the last flags |
| `Http2SendLimits.HeadersEndExactlyWhen` | src/http/Http2Stream.cpp:205-225 | in any state, the first frame cut from a header block is HEADERS and carries END_STREAM exactly when the block asks for it and fits one frame |
| `Http2SendLimits.SentHeadersEndExactlyWhen` | src/http/Http2Stream.cpp:94-110 | a header block sent with end_stream on a stream with nothing queued goes out whole, and its HEADERS frame carries END_STREAM exactly when the block is not longer than the frame limit |
| `Http2SendLimits.SplitHeadersDoNotEnd` | src/http/Http2Stream.cpp:104-109 | the run in which the peer opens a stream and the answer is one header block: END_STREAM is on HEADERS exactly up to 16384 bytes, and beyond on a CONTINUATION frame |
| `Http2SendLimits.LastFrameIsRefused` | src/http/Http2Stream.cpp:112-124 | the run in which the peer ends its side and the one frame of the answer is refused: the stream is closed and nothing was queued |
| `Http2SendLimits.EmptyEndIsNeverSent` | src/http/Http2Stream.cpp:181-185 | the run in which an empty payload with END_STREAM completes without a frame |
| `Http2SendLimits.ClosedHeadServedExactlyWhen` | src/http/Http2Connection.cpp:1321-1342 | a closed stream at the head of the wait list gets a frame from a connection WINDOW_UPDATE exactly when its queue starts with something its own window lets through |
| `Http2SendLimits.ClosedStreamIsForgotten` | src/http/Http2Stream.cpp:275-278 | a run in which a payload held back by its stream's window stays queued for good once the peer ends the stream |
| `Http2SendLimits.HeadGoesOut` | src/http/Http2Stream.cpp:187-254 | a head entry that no window holds back goes out when its stream is scheduled |
| `Http2SendObject.SendSide.QueueFrame` | src/http/Http2Stream.cpp:205-258 | queueing one frame in place is the step SendChunk |
| `Http2SendObject.SendSide.SyncConnWindowWait` | src/http/Http2Stream.cpp:452-468 | membership in the wait list after the call is exactly being blocked by the connection window |
| `Http2SendObject.SendSide.SchedulePending` | src/http/Http2Stream.cpp:154-273 | the loop over fields is the step Schedule and reports whether a frame was queued |
| `Http2SendObject.SendSide.TrySchedulePending` | src/http/Http2Stream.cpp:470-475 | a closed stream is left alone |
| `Http2SendObject.SendSide.EnqueuePending` | src/http/Http2Stream.cpp:39-61 | refused on a closed stream, otherwise queued and scheduled |
| `Http2SendObject.SendSide.DrainConnBlockedStreams` | src/http/Http2Connection.cpp:1321-1342 | the repeated passes terminate and leave the wait list empty or the window used up |
| `Http2SendObject.SendSide.ConnectionWindowUpdate` | src/http/Http2Connection.cpp:607-623 | the handler on stream 0, error cases included, is the step ConnWindowUpdate |
| `Http2SendObject.SendSide.HandleSendDone` | src/http/Http2Stream.cpp:477-501 | the completion handler, for a frame written in full, is the step SendDone |
| `Http2SendObject.SendSide.MoveStreamWindow` | src/http/Http2Stream.cpp:275-278 | the window moves and the stream is rescheduled |
| `Http2SendObject.SendSide.ApplyPeerInitialStreamWindow` | src/http/Http2Connection.cpp:723-751 | two passes over the table: a refused value changes no window |
| `Http2SendObject.SendSide.MoveAll` | src/http/Http2Connection.cpp:744-750 | the second pass moves exactly the listed streams |
| `Http2StreamTable.StreamTable.constructor` | src/http/Http2StreamTable.cpp:10-31 | an empty map with at least twice as many buckets as streams, their number a power of two |
| `Http2StreamTable.StreamTable.FindSlot` | src/http/Http2StreamTable.cpp:118-135 | the probe ends and finds the slot of the id, or none when the map has none |
| `Http2StreamTable.StreamTable.Find` | src/http/Http2StreamTable.cpp:40-54 | find is map lookup |
| `Http2StreamTable.StreamTable.Insert` | src/http/Http2StreamTable.cpp:56-78 | insert adds the binding if the id is absent and there is capacity, else changes nothing |
| `Http2StreamTable.StreamTable.Erase` | src/http/Http2StreamTable.cpp:80-89 | erase removes the binding and returns it |
| `Http2StreamTable.StreamTable.EraseAt` | src/http/Http2StreamTable.cpp:141-156 | backward-shift deletion ends, removes just that binding and leaves no gap on any probe path |
| `Http2StreamTable.NextPow2` | src/http/Http2StreamTable.cpp:91-101 | the least power of two that is not smaller |
| `Http2StreamTable.ProbeMiss` | src/http/Http2StreamTable.cpp:118-135 | a free slot after unsuccessful probes means the id is nowhere |
| `Http2StreamTable.InsertKeeps` | src/http/Http2StreamTable.cpp:60-77 | filling the first free slot of a probe path leaves no gaps |
| `Http2StreamTable.ShiftMoves` | src/http/Http2StreamTable.cpp:137-150 | an entry whose path crosses the hole moves into it and nothing becomes unreachable |
| `Http2StreamTable.ShiftSkips` | src/http/Http2StreamTable.cpp:137-150 | an entry whose path does not cross the hole may stay |
| `Http2StreamTable.ShiftEnds` | src/http/Http2StreamTable.cpp:151-156 | when the run of entries ends the hole can be left free |
| `Http2StreamTable.SomeFree` | src/http/Http2StreamTable.cpp:10-31 | a table filled up to its limit always has a free bucket, which ends every probe |
| `TimerQueue.TimerQueue.SwapNodes` | src/event/TimerQueue.cpp:26-58 | a parent and its child exchange places and every link of the tree agrees with the new layout |
| `TimerQueue.TimerQueue.Rewire` | src/event/TimerQueue.cpp:26-58 | which node points where after the exchange |
| `TimerQueue.TimerQueue.Descend` | src/event/TimerQueue.cpp:71-86 | the bits of the count lead from the root to the slot of that position |
| `TimerQueue.TimerQueue.Insert` | src/event/TimerQueue.cpp:60-95 | the tree stays complete, linked and heap-ordered and holds exactly one node more |
| `TimerQueue.TimerQueue.Remove` | src/event/TimerQueue.cpp:97-174 | any linked node can be removed: the tree stays complete, linked and heap-ordered with exactly the others |
| `TimerQueue.TimerQueue.SiftUp` | src/event/TimerQueue.cpp:92-94 | restores the order above a node |
| `TimerQueue.TimerQueue.SiftDown` | src/event/TimerQueue.cpp:157-169 | restores the order below a node |
| `TimerQueue.TimerQueue.DetachLast` | src/event/TimerQueue.cpp:109-128 | takes the node in the last slot out of the tree |
| `TimerQueue.TimerQueue.Substitute` | src/event/TimerQueue.cpp:137-155 | puts it where the removed node was |
| `TimerQueue.TimerQueue.RunDue` | src/event/EventLoop.cpp:119-135 | fires exactly the due nodes, in order of deadline, and keeps the others |
| `TimerHeap.PathTo` | src/event/TimerQueue.cpp:71-74 | the collected bits of a position lead back to it |
| `TimerHeap.SiftUpStep` | src/event/TimerQueue.cpp:92-94 | one exchange moves the only violation of the order up |
| `TimerHeap.SiftDownStep` | src/event/TimerQueue.cpp:157-169 | one exchange with the smaller child moves it down |
| `TimerHeap.RootIsLeast` | src/event/TimerQueue.cpp:14-16 | the root has the earliest deadline |
| `TimerHeap.ReplaceOrdered` | src/event/TimerQueue.cpp:137-155 | after the last node takes a removed one's place only that position may be out of order |
| `EventLoopWakeup.StepKeeps` | src/event/EventLoop.cpp:73-117 | every atomic step of any producer or of the loop keeps the invariant |
| `EventLoopWakeup.EveryRunKeeps` | src/event/EventLoop.cpp:176-207 | so does every interleaving |
| `EventLoopWakeup.NoLostWakeup` | src/event/EventLoop.cpp:73-117 | whenever the loop is at the poller with a node of another thread queued, the eventfd is readable or a producer has its exchange or write still to do |
| `EventLoopWakeup.PostsRunInOrder` | src/event/MpscQueue.h:36-61 | callbacks run in the order of the successful swaps, each post once, nodes reused or not; what is queued follows in that order |
| `EventLoopWakeup.NeverAsleep` | src/event/EventLoop.cpp:176-207 | without posts from deferred callbacks the loop never sleeps on queued work |
| `EventLoopWakeup.DeferredPostSleeps` | src/event/EventLoop.cpp:84-89 | a post from a deferred callback is slept on exactly when no wake-up happens to be written or under way |
| `EventLoopWakeup.AsleepExactlyWhen` | src/event/EventLoop.cpp:176-207 | after any interleaving the loop sleeps on queued work exactly when it is at the poller, no wake-up is written or under way, and a deferred callback has posted in this round |
| `EventLoopWakeup.LocalIsDeferred` | src/event/EventLoop.cpp:84-89 | while the loop rests, what is queued from its own thread is exactly what its deferred callbacks posted |
| `EventLoopWakeup.FirstRoundSleeps` | src/event/EventLoop.cpp:176-207 | three steps from the start after which the loop is asleep on a callback of its own |
| `EventLoopWakeup.SwapKeeps` | src/event/MpscQueue.h:40-48 | a swap against the current head links the node in front; a stale one is retried |
| `EventLoopWakeup.TakeBatchKeeps` | src/event/MpscQueue.h:51-61 | taking the stack leaves it empty and the batch linked oldest first |
| `MpscQueue.Queue.Push` | src/event/MpscQueue.h:36-49 | the node goes in front of the stack |
| `MpscQueue.Queue.TryPopAll` | src/event/MpscQueue.h:51-61 | reverses the links in place: all nodes, oldest first, and an empty stack |
| `EventLoopProgress.CanDrain` | src/event/EventLoop.cpp:176-207 | from every reachable state, unless the loop rests on its own deferred posts with no wake-up under way, the loop and the producers under way can run all that was posted, the poller returning only for the eventfd |
| `EventLoopProgress.RunsOldest` | src/event/EventLoop.h:281-296 | the loop runs the oldest post not yet run, and only that one |
| `EventLoopProgress.PostIsQueued` | src/event/EventLoop.cpp:73-89 | a post that nothing interrupts is queued behind all others, raises the flag, and writes the eventfd exactly when the flag was down |
| `EventLoopProgress.AsleepStays` | src/event/EventLoop.cpp:176-207 | asleep with no producer under way, the loop stays so until a new post or a return of the poller for something else |
| `AsyncMutex.StepKeeps` | src/async/Mutex.cpp:117-239 | every operation, post, resumption and deletion keeps the invariant |
| `AsyncMutex.Run` | src/async/Mutex.cpp:75-239 | the invariant holds after every interleaving |
| `AsyncMutex.OneOwner` | src/async/Mutex.cpp:117-140 | locked exactly when there is one owner, a guard or a notified waiter; unlocked means no queue; the queued are waiting |
| `AsyncMutex.FirstComeFirstServed` | src/async/Mutex.cpp:210-234 | ownership has gone and goes next in order of arrival over the waiters not cancelled in the queue |
| `AsyncMutex.HandOff` | src/async/Mutex.cpp:129-208 | unlocking, or cancelling a notified waiter, passes the ownership to the longest-queued waiter, or unlocks when there is none |
| `AsyncMutex.WaiterLife` | src/async/Mutex.cpp:21-39 | a waiter is resumed at most once, freed at most once, never resumed after being cancelled, and never both freed and queued |
| `AsyncMutex.FreedIsFinal` | src/async/Mutex.cpp:33-39 | no step touches a freed waiter |
| `AsyncMutex.SelectSkips` | src/async/Mutex.cpp:210-234 | the hand-over serves the first waiter still waiting and forgets those before it, or unlocks |
| `AsyncMutexList.Mutex.TryLock` | src/async/Mutex.cpp:117-127 | takes a free mutex |
| `AsyncMutexList.Mutex.EnqueueWaiter` | src/async/Mutex.cpp:147-164 | takes a free mutex, else appends to the linked list |
| `AsyncMutexList.Mutex.CancelWaiter` | src/async/Mutex.cpp:166-208 | unlinks a queued waiter; a notified one passes the ownership to the first waiter still waiting and drops those before it from the list; others are left alone |
| `AsyncMutexList.Mutex.SelectNext` | src/async/Mutex.cpp:210-234 | the loop pops up to the first waiter still waiting and makes it the owner, or unlocks; head, tail and links stay consistent |
| `AsyncMutexList.Mutex.Erase` | src/async/Mutex.cpp:176-191 | unlinks a waiter from anywhere in the list |
| `AsyncMutexHistory.GuardsAreCounted` | src/async/Mutex.cpp:117-140 | the guards out are those taken less those given up, never two; locked means one is out or a waiter owns the mutex |
| `AsyncMutexHistory.TryLockTakes` | src/async/Mutex.cpp:117-127 | try_lock makes a guard exactly when nobody owns the mutex |
| `AsyncMutexHistory.LockTakesOrQueues` | src/async/Mutex.cpp:147-164 | lock takes a free mutex at once, otherwise the waiter is last in the queue |
| `AsyncMutexHistory.CancelLeavesQueue` | src/async/Mutex.cpp:166-208 | a waiter cancelled in the queue leaves it and is freed; the others keep their order and nobody gets the mutex |
| `AsyncMutexHistory.ResumeRuns` | src/async/Mutex.cpp:21-39 | a resumption runs the coroutine with a guard exactly when the waiter still owns the mutex |
| `AsyncMutexHistory.CanFinish` | src/async/Mutex.cpp:75-239 | from every reachable state every waiter can be brought to its end without cancelling it: its coroutine has then run once with a guard, unless it was cancelled before |
| `FdWaiters.StepKeeps` | src/net/detail/RWFd.cpp:91-246 | every step of the two threads keeps the invariant |
| `FdWaiters.Run` | src/net/detail/RWFd.cpp:91-246 | it holds after every interleaving of any number of waiters |
| `FdWaiters.WaiterLife` | src/net/detail/RWFd.cpp:134-210 | freed at most once, resumed at most once and never after a cancel, shared entry posted at most once; a freed waiter is in no slot, queue or hand |
| `FdWaiters.FreedIsFinal` | src/net/detail/RWFd.cpp:134-246 | no step touches a freed waiter |
| `FdWaiters.NothingLeaks` | src/net/detail/RWFd.h:206-282 | with the queues empty and the loop idle, a waiter not freed is being watched in its slot |
| `FdWaiters.AssertionsHold` | src/net/detail/RWFd.cpp:134-222 | the callbacks find the states they assert |
| `FdWaitersHistory.BeginTakesSlot` | src/net/detail/RWFd.h:113-138 | begin_wait on an open descriptor with a free slot leaves the waiter in the slot of its event and nothing else changed |
| `FdWaitersHistory.BeginFails` | src/net/detail/RWFd.h:113-126 | a refused begin_wait passes the failure to the waiter and leaves the slots |
| `FdWaitersHistory.ResumedExactlyWhen` | src/net/detail/RWFd.cpp:181-246 | in every run a coroutine is resumed only after its waiter was taken from its slot or its begin_wait failed; once the queues are empty, a waiter not cancelled has been resumed and freed exactly when that happened, and is in its slot otherwise |
| `FdWaitersHistory.ChosenExactly` | src/net/detail/RWFd.cpp:91-130 | a waiter not cancelled is on its way to begin_wait or in its slot exactly until a step chooses it |
| `FdWaitersHistory.RecordsAreTrue` | src/net/detail/RWFd.cpp:134-246 | what a waiter records (its event, cancelled, resumed, awaited) is what the steps of the run did |
| `FdWaitersHistory.DescriptorFollows` | src/net/detail/RWFd.cpp:38-77 | the descriptor is open until it is closed, and a slot holds a local waiter exactly from its begin_wait to its end |
| `FdWaitersHistory.CanFinish` | src/net/detail/RWFd.cpp:134-246 | from every reachable state every waiter can be brought to its deletion, its coroutine resumed exactly when it was not cancelled |
| `Http2Inbound.HeaderRoundTrip` | src/http/Http2Protocol.h:45-56 | the nine bytes parse back to the header, up to 24 bits of length and 31 of stream identifier |
| `Http2Inbound.HeaderReEncodes` | src/http/Http2Connection.cpp:47-55 | nine bytes are the encoding of what they parse to, but for the reserved bit |
| `Http2FrameReader.StreamPayload` | src/http/Http2Connection.cpp:342-509 | the handlers of DATA, HEADERS and CONTINUATION: which bytes of a piece the stream gets at which offset, when the end is signalled, what a refusal does, and how the header block advances |
| `Http2FrameReader.SettingsPayload` | src/http/Http2Connection.cpp:534-552 | collecting parameters in the scratch buffer, whatever the piece, is taking bytes one by one |
| `Http2FrameReader.Deliver` | src/http/Http2Connection.cpp:311-340 | handling a piece of any frame, the check for CONTINUATION and all errors included, is `Handled` |
| `Http2FrameReader.FrameReader.Feed` | src/http/Http2Connection.cpp:177-245 | one read: the rest of the frame in hand is one piece, everything behind it is what the byte machine makes of it |
| `Http2FrameReader.FrameReader.Turn` | src/http/Http2Connection.cpp:178-245 | one turn of that loop |
| `Http2FrameReader.FrameReader.PayloadStep` | src/http/Http2Connection.cpp:228-244 | as much of a payload as the buffer holds |
| `Http2FrameReader.FirstPiece` | src/http/Http2Connection.cpp:311-340 | a piece that starts a payload is handled as its bytes are, in any state |
| `Http2FrameReader.PieceIsBytes` | src/http/Http2Connection.cpp:362-388 | a piece of a frame for a stream that is neither refused nor in its padding is its bytes, one after the other |
| `Http2ReadBuffer.ReadBuffer.Prepare` | src/http/Http2Connection.cpp:80-113 | the unread bytes move to the front, in place or into a new buffer if slices of the old are held; nothing is lost and no holder of a slice sees a change |
| `Http2ReadBuffer.ReadBuffer.Commit` | src/http/Http2Connection.cpp:252-252 | what a read brings stands behind the unread bytes, and nothing before them changes |
| `Http2ReadBuffer.MoveDown` | src/http/Http2Connection.cpp:107-110 | overlapping bytes moved towards the front arrive unaltered |
| `Http2InboundTheorems.CutsDoNotMatter` | src/http/Http2Connection.cpp:177-263 | unless a read ends where it must not (`Harmless`), frames, settings, control payloads, bytes given to streams, stream states and errors do not depend on the read boundaries; the bytes one frame gives its stream do not for any reads (`BytesArriveHoweverCut`) |
| `Http2InboundTheorems.FeedAll` | src/http/Http2Connection.cpp:177-263 | the read loop over any list of reads is the sequence of those reads |
| `Http2InboundTheorems.CutsMatterExactlyWhen` | src/http/Http2Connection.cpp:311-509 | a payload read in pieces that do not go beyond it has the outcome of one read exactly when no read ends where it must not |
| `Http2InboundTheorems.PaddingCutsMatterExactlyWhen` | src/http/Http2Connection.cpp:342-464 | for a frame its stream takes: exactly when it is DATA without END_STREAM or no read ends in its padding |
| `Http2InboundTheorems.PaddedHeadersCut` | src/http/Http2Connection.cpp:313-318 | a padded HEADERS frame of three bytes to be continued: accepted whole, refused when the read ends before its padding |
| `Http2InboundTheorems.PaddedDataCut` | src/http/Http2Connection.cpp:373-385 | a padded DATA frame with END_STREAM: cut before its padding, the stream that has just ended is reset |
| `Http2InboundTheorems.RefusedDataCut` | src/http/Http2Connection.cpp:357-384 | DATA on a stream the peer has ended: a stream error whole, the end of the connection when cut |
| `Http2InboundTheorems.EatAllRegular` | src/http/Http2Connection.cpp:391-464 | whatever the bytes, the state between reads stays consistent with the header block and the stream table |
| `Http2InboundTheorems.AlwaysRoom` | src/http/Http2Connection.cpp:80-113 | what is unread between two reads is less than the buffer, so `Prepare` makes room for the next read |
| `Http2InboundTheorems.ScratchFits` | src/http/Http2Connection.cpp:573-576 | the scratch buffers are not overrun |
| `Http2InboundFrames.DataFrame` | src/http/Http2Connection.cpp:342-389 | the whole outcome of a DATA frame: connection error, stream error, or its data in order without pad length and padding and, if flagged, the end of the stream |
| `Http2InboundFrames.HeaderFrame` | src/http/Http2Connection.cpp:391-509 | the whole outcome of a HEADERS or CONTINUATION frame, padded or with priority or not: connection error, stream error, or a fragment that continues the header block where it stands, the stream opened first if the frame opens it |
| `Http2InboundFrames.HeaderBlock` | src/http/Http2Connection.cpp:391-509 | a block sent as HEADERS, padded or with priority or not, and any number of CONTINUATION frames reaches its stream, which it may open, whole and in order, leaves no block open, and ends the stream exactly when HEADERS says so |
| `Http2InboundFrames.SettingsFrame` | src/http/Http2Connection.cpp:511-562 | a SETTINGS frame, in whatever reads it arrives, applies its parameters in order up to the first refused, else acknowledges once |
| `Http2InboundFrames.ControlFrame` | src/http/Http2Connection.cpp:564-691 | PING, WINDOW_UPDATE, RST_STREAM and GOAWAY, in whatever reads they arrive, have the outcome of their payload taken whole |
| `Http2InboundFrames.OtherFramesDoNotCare` | src/http/Http2Connection.cpp:177-263 | a frame that goes to no stream, header included, has one outcome in whatever reads it arrives |
| `Http2InboundFrames.BytesArriveHoweverCut` | src/http/Http2Connection.cpp:342-509 | however a DATA, HEADERS or CONTINUATION frame is cut into reads, in its padding or anywhere, its stream gets exactly the bytes between prefix and padding, once and in order, if it takes the frame, and otherwise none |
| `Http2InboundFrames.BlocksStartAtZero` | src/http/Http2Connection.cpp:454-462 | whatever was read and however it was cut, outside a header block no fragment is counted, so every block starts at offset 0 |
| `Http2InboundStreams.BodyRead` | src/http/Http2Connection.cpp:342-452 | what a frame built from pad length, priority, body and padding gives its stream is the body |
| `Http2InboundStreams.DataFromFields` | src/http/Http2Connection.cpp:342-389 | DATA from its fields, in every state: stopped outside the table or inside a header block; an open or half-closed (local) stream gets the bytes at offsets 0, 1, ... and its end, and leaves the table when nothing is left of it; any other stream is closed with a stream error |
| `Http2InboundStreams.HeadersFromFields` | src/http/Http2Connection.cpp:391-465 | HEADERS from its fields, in every state: who may open a stream, what the stream gets, what block remains to be continued, and what else in the table stays as it was |
| `Http2InboundStreams.ContinuationFromFields` | src/http/Http2Connection.cpp:467-509 | CONTINUATION from its fields: only on the stream of the unfinished block, which it continues at the offset reached and ends with the END_STREAM of its HEADERS frame |
| `Http2InboundControl.PingFrame` | src/http/Http2Connection.cpp:564-587 | PING: the eight bytes are sent back unless they answer one of ours; the streams stay as they are |
| `Http2InboundControl.GoawayFrame` | src/http/Http2Connection.cpp:668-691 | GOAWAY with last stream and code as sent, the reserved bit ignored: exactly our streams above the last one are closed |
| `Http2InboundControl.ResetFrame` | src/http/Http2Connection.cpp:640-666 | RST_STREAM: exactly its stream is closed; on a stream never used it ends the connection, on one gone it does nothing |
| `Http2InboundControl.WindowUpdateFrame` | src/http/Http2Connection.cpp:589-638 | WINDOW_UPDATE: zero and refused increments on the connection and on streams, streams never used or gone, and whom the credit reaches |
| `Http2InboundControl.SettingsListFrame` | src/http/Http2Connection.cpp:511-562 | SETTINGS as a list of identifiers and values: applied in order up to the first refused, then acknowledged once |
| `Http2InboundControl.SettingsAckFrame` | src/http/Http2Connection.cpp:511-562 | an acknowledgement without payload is noted and nothing else happens |
| `Http2InboundControl.BadFrameStops` | src/http/Http2Connection.cpp:311-340 | a frame out of turn, on the wrong stream or of the wrong length for its type ends the connection, in whatever reads it arrives |
| `Http2InboundControl.UnknownFrameIsIgnored` | src/http/Http2Connection.cpp:306-340 | a frame of an unknown type is skipped |
| `Http2InboundControl.LongFrameStops` | src/http/Http2Connection.cpp:177-263 | a frame longer than allowed ends the connection before any of its payload |
| `Chunked.ReadEats` | src/http/Http1Parser.cpp:954-1128 | reading chunk data after each Ok does what the parser and reader do byte by byte |
| `Chunked.CutsDoNotMatter` | src/http/Http1Parser.cpp:954-1128 | the outcome does not depend on how the bytes are cut |
| `Chunked.DoneStays` | src/http/Http1Parser.cpp:1017-1128 | once the body is done the parser is in the trailer, takes nothing more and says so again |
| `Chunked.AdvanceBig` | src/http/Http1Parser.cpp:1130-1132 | a size past the limit is never forgotten |
| `Chunked.AdvanceFacts` | src/http/Http1Parser.cpp:964-1071 | Ok is returned only before a data byte with a non-zero size; Again uses all bytes |
| `ChunkedGrammar.FinishesExactly` | src/http/Http1Parser.cpp:954-1128 | however the bytes are cut, the reader finishes exactly on the texts of the chunked grammar, chunk extensions and bare line feeds included, with the body they spell and the bytes behind them |
| `ChunkedGrammar.LineRead` | src/http/Http1Parser.cpp:983-1110 | a size line is read as the value of its digits, in either case, whatever its extension |
| `ChunkedGrammar.ChunksOf` | src/http/Http1Parser.cpp:954-1128 | whatever was read to the end was a list of chunks and a last chunk |
| `ChunkedWire.SizeIsExact` | src/http/Http1Parser.cpp:971-977 | the size is the exact hexadecimal value of its digits or the line is refused; it never wraps |
| `ChunkedWire.ChunkReadsBack` | src/http/Http1ExchangeIo.cpp:890-915 | a written chunk is read back whole, or refused exactly when too large |
| `ChunkedWire.WireReadsBack` | src/http/Http1ExchangeIo.cpp:792-803 | all chunks, the last chunk and the trailer block read back in order |
| `ChunkedWire.RoundTrip` | src/http/Http1ExchangeIo.cpp:980-1047 | for any pieces and any cut of the wire the reader gets the concatenated body and BodyDone with the trailer block left; refused exactly when a piece is within five bytes of 2^64 |
| `ChunkedWire.ChunkedWriter.WriteBody` | src/http/Http1ExchangeIo.cpp:890-915 | the wire is the text of the pieces written so far; an empty piece writes nothing |
| `ChunkedWire.ChunkedWriter.FinishResponse` | src/http/Http1ExchangeIo.cpp:781-803 | the last chunk and the trailer block follow, once |
| `ChunkedWire.ChunkedBodyParser.Execute` | src/http/Http1Parser.cpp:954-1172 | the byte loop computes the specified result |
| `ChunkedWire.ChunkedBodyParser.Consume` | src/http/Http1Parser.cpp:946-952 | the remaining size after data was taken |
| `ChunkedWire.ReadSome` | src/http/Http1Parser.cpp:954-1128 | the driver loop computes the specified reading |
| `IoBufChain.Chain.Append` | src/common/mem/IoBuf.cpp:303-327 | content grows at the end; cached counts are the sums over the nodes |
| `IoBufChain.Chain.Prepend` | src/common/mem/IoBuf.cpp:329-351 | content grows at the front |
| `IoBufChain.Chain.RetainPrefix` | src/common/mem/IoBuf.cpp:353-378 | slices spelling exactly the first bytes |
| `IoBufChain.Chain.Consume` | src/common/mem/IoBuf.cpp:389-401 | exactly the first bytes go; the buffers stay |
| `IoBufChain.Chain.ConsumeAndCompact` | src/common/mem/IoBuf.cpp:416-443 | exactly the first bytes go, with the buffers they empty |
| `IoBufChain.Chain.DropEmptyFront` | src/common/mem/IoBuf.cpp:403-414 | content unchanged, front not empty |
| `IoBufChain.Payload.SplitPrefix` | src/http/Http2SendPayload.cpp:74-115 | for every kind a prefix of exactly the asked length followed by the remainder is the original; refused exactly when there are fewer bytes |
| `IoBufChain.TakenIs` | src/common/mem/IoBuf.cpp:353-378 | the slices concatenate to the prefix |
| `IoBufChain.ConsumedIs` | src/common/mem/IoBuf.cpp:389-401 | what is left concatenates to the rest and keeps the writable total |
| `JsonLex.LexStable` | src/common/json/JsonDecode.cpp:479-574 | a token accepted or rejected before the input is final stays so under any extension |
| `JsonLex.StringStable` | src/common/json/JsonDecode.cpp:210-348 | the same for strings, escapes and surrogate pairs included |
| `JsonLex.NumberStable` | src/common/json/JsonDecode.cpp:373-477 | the same for numbers, which end only at a delimiter |
| `JsonLex.LexSkips` | src/common/json/JsonDecode.cpp:481-493 | leading white space may be dropped before more bytes arrive |
| `JsonStream.DriveCut` | src/common/json/JsonDecode.cpp:1180-1342 | what a call leaves behind serves for any continuation; a failure stays one |
| `JsonStream.FeedIsOneDrive` | src/common/json/JsonDecode.cpp:1001-1016 | feeding pieces and finishing is one pass over their concatenation |
| `JsonStream.CutsDoNotMatter` | src/common/json/JsonDecode.cpp:1001-1016 | two ways to cut the same text give the same verdict and value |
| `JsonParse.ValueAgrees` | src/common/json/JsonDecode.cpp:594-632 | where a value is due, the machine takes exactly what the descent reads, or fails with it |
| `JsonParse.ElemsAgree` | src/common/json/JsonDecode.cpp:694-735 | the same for the elements of an array |
| `JsonParse.MembersAgree` | src/common/json/JsonDecode.cpp:634-692 | the same for the members of an object |
| `JsonParse.NumbersAgree` | src/common/json/JsonDecode.cpp:831-901 | the two number readers differ only in what may follow |
| `JsonParse.OneDriveAgrees` | src/common/json/JsonDecode.cpp:581-591 | one pass accepts exactly the texts the one-shot parser accepts, with the same value |
| `JsonParse.StreamingAgrees` | src/common/json/JsonDecode.cpp:1030-1342 | for every list of pieces, feeding and finishing completes exactly when the one-shot parser accepts the concatenation, with the same value |
| `JsonGrammarTheorems.ParsesExactly` | src/common/json/JsonDecode.cpp:581-931 | the one-shot parser takes a text for a value exactly when the grammar of RFC 8259 writes that text for that value: white space, escapes, surrogate pairs, numbers and repeated keys included |
| `JsonGrammarTheorems.StreamsExactly` | src/common/json/JsonDecode.cpp:1001-1342 | so does the streaming parser for every list of pieces; it rejects exactly the texts that mean nothing |
| `JsonGrammarTheorems.DocRead` | src/common/json/JsonDecode.cpp:594-632 | every written value is read as what it means, whatever may follow a value behind it |
| `JsonGrammarProofs.CharBack` | src/common/json/JsonDecode.cpp:230-340 | every character of a string, raw, escaped by letter, by four hexadecimal digits of either case or as a surrogate pair, is read as the units it stands for |
| `JsonGrammarProofs.CharOf` | src/common/json/JsonDecode.cpp:230-340 | whatever is read as an element of a string was such a character |
| `JsonGrammarProofs.LoneSurrogate` | src/common/json/JsonDecode.cpp:276-307 | an escape that names a surrogate without its other half is refused |
| `JsonGrammarProofs.NumeralBack` | src/common/json/JsonDecode.cpp:831-901 | every number with a delimiter behind it is read as its positional value, or refused exactly when an integer does not fit 64 bits or a float is out of range |
| `JsonGrammarProofs.NumeralOf` | src/common/json/JsonDecode.cpp:831-901 | whatever is read as a number is a numeral of the grammar |
| `JsonParsers.DecodedString.AppendUnit` | src/common/json/JsonDecode.cpp:37-51 | units in order; narrow exactly while all of them fit a byte |
| `JsonParsers.DecodedString.AppendPoint` | src/common/json/JsonDecode.cpp:53-63 | one unit or a surrogate pair |
| `JsonParsers.ScanString` | src/common/json/JsonDecode.cpp:210-348 | the loop, decoding into a string that widens in place, computes the specified string |
| `JsonParsers.DecodeElement` | src/common/json/JsonDecode.cpp:230-340 | one escape or character appends just the code units it stands for, or says what is wrong or missing |
| `JsonParsers.ScanNumber` | src/common/json/JsonDecode.cpp:373-434 | the loops find the extent of the number |
| `JsonParsers.LexNumber` | src/common/json/JsonDecode.cpp:373-477 | the specified number token |
| `JsonParsers.LexToken` | src/common/json/JsonDecode.cpp:479-574 | the specified token |
| `JsonParsers.StreamParser.ParseInternal` | src/common/json/JsonDecode.cpp:1180-1342 | the loop over tokens, in place on buffer, state stack and containers, is the specified machine, errors included |
| `JsonParsers.StreamParser.TakeToken` | src/common/json/JsonDecode.cpp:1226-1336 | the switch over state and token, in place on the stacks, is one step of the machine; a refused token changes nothing |
| `JsonParsers.StreamParser.CloseContainer` | src/common/json/JsonDecode.cpp:1140-1150 | closing a container pops both stacks and gives the container to the one around it, or is refused |
| `JsonParsers.StreamParser.Parse` | src/common/json/JsonDecode.cpp:1001-1012 | one more piece |
| `JsonParsers.StreamParser.Finish` | src/common/json/JsonDecode.cpp:1014-1016 | the end of the input |
| `JsonParsers.StreamParser.CompactBuffer` | src/common/json/JsonDecode.cpp:1344-1351 | drops used bytes only |
| `JsonParsers.ParsePieces` | src/common/json/JsonDecode.cpp:1001-1016 | a parser object fed any pieces says what the one-shot parser says of the whole |
| `JsonDescent.OneShotParser.ParseAll` | src/common/json/JsonDecode.cpp:581-591 | the cursor-moving parser computes the specified result |
| `JsonDescent.OneShotParser.ParseValueHere` | src/common/json/JsonDecode.cpp:594-632 | reads exactly one value |
| `JsonDescent.OneShotParser.ParseArray` | src/common/json/JsonDecode.cpp:694-735 | the element loop |
| `JsonDescent.OneShotParser.ParseObject` | src/common/json/JsonDecode.cpp:634-692 | the member loop; a repeated key keeps its place |
| `JsonDescent.OneShotParser.ParseKey` | src/common/json/JsonDecode.cpp:651-666 | a quoted key and its colon |
| `JsonDescent.OneShotParser.ParseScalar` | src/common/json/JsonDecode.cpp:737-931 | strings, numbers and literals |
| `JsonUtf.ThereAndBack` | src/common/json/JsGc.cpp:651-761 | valid UTF-8 made into a heap string and back is unchanged |
| `JsonUtf.BackAndThere` | src/common/json/JsGc.cpp:151-195 | well-formed UTF-16 written as UTF-8 and read back is unchanged; what a heap string is written as is always valid |
| `JsonUtf.OneSpelling` | src/common/json/JsGc.cpp:151-195 | each string has one UTF-8 spelling |
| `JsonUtf.ReadsBack` | src/common/json/JsGc.cpp:197-213 | an encoded code point decodes to itself |
| `JsonUtf.WritesBack` | src/common/json/Utf.cpp:9-50 | a decoded code point re-encodes to the same bytes: no overlong forms, no surrogates |
| `JsonUtf.NextCodepoint` | src/common/json/Utf.cpp:9-50 | the decoding loop |
| `JsonUtf.Scan8` | src/common/json/Utf.cpp:52-72 | succeeds exactly on valid UTF-8 and predicts width and number of units |
| `JsonUtf.WriteBytes` | src/common/json/Utf.cpp:79-102 | fills a buffer of exactly the predicted length with the units; fails for any other length, wide units or invalid input |
| `JsonUtf.WriteUtf16` | src/common/json/Utf.cpp:104-135 | the same for 16-bit units |
| `JsonUtf.Measure` | src/common/json/JsGc.cpp:698-723 | the first pass counts exactly the bytes of the text, or finds a lone surrogate |
| `JsonUtf.StringToUtf8` | src/common/json/JsGc.cpp:698-761 | the second pass fills exactly what was measured |
| `JsonUtf.NarrowToUtf8` | src/common/json/JsGc.cpp:673-697 | the same for the narrow encoding |
| `JsonUtf.NarrowIsText` | src/common/json/JsGc.cpp:673-697 | a narrow string is always well formed and grows by one byte per unit from 0x80 up |
| `JsonRoundTrip.RoundTrip` | src/common/json/JsonEncode.cpp:150-303 | parsing what was written for a value gives the value and its key order back, in every style with a white-space indent |
| `JsonRoundTrip.StreamedRoundTrip` | src/common/json/JsonDecode.cpp:1001-1016 | so does streaming the text in any pieces |
| `JsonRoundTrip.TextDetermines` | src/common/json/JsonEncode.cpp:384-557 | values written alike, in whatever styles, are equal |
| `JsonRoundTrip.ValueBack` | src/common/json/JsonEncode.cpp:384-452 | the same inside any text that may follow a value |
| `JsonRoundTrip.EscapedString` | src/common/json/JsonEncode.cpp:454-516 | a written string is read back unit by unit |
| `JsonRoundTrip.IntBack` | src/common/json/JsonEncode.cpp:288-303 | every 64-bit integer is read back |
| `JsonRoundTrip.MembersBack` | src/common/json/JsonEncode.cpp:419-452 | members come back in order |
| `JsonShortest.Shortest` | src/common/json/JsonEncode.cpp:454-516 | the compact text of a value is the shortest text of the grammar that means it: no blank, no longer escape, no needless digit |
| `JsonShortest.ReadIsWritable` | src/common/json/JsonDecode.cpp:581-931 | whatever is read and holds no float can be written: 64-bit integers, well-formed strings, keys once each |
| `JsonLayout.BeautyIsFormatted` | src/common/json/JsonEncode.cpp:384-452 | the text in the Beauty style is the compact text run through a formatter that breaks and indents lines by depth |
| `JsonLayout.SolidusIsEscaped` | src/common/json/JsonEncode.cpp:454-516 | escaping the solidus puts a backslash before each one and changes nothing else |
| `JsonGenerator.Generator.EncodeValue` | src/common/json/JsValueEncode.cpp:61-83 | where a value is due, succeeds exactly on well-formed values nested below the limit and has then written the value's text; elsewhere only a string can succeed, as a key; a failure leaves the error state unless the text was complete |
| `JsonGenerator.WritableIsStorable` | src/common/json/JsValueEncode.cpp:61-83 | the generator may be handed every value that is written, so the condition on its argument excludes none of them |
| `JsonGenerator.Generator.EncodeArray` | src/common/json/JsValueEncode.cpp:15-30 | the same for arrays |
| `JsonGenerator.Generator.EncodeObject` | src/common/json/JsValueEncode.cpp:32-57 | the same for objects, members in order |
| `JsonGenerator.Generator.PrefixForValue` | src/common/json/JsonEncode.cpp:384-417 | what separates a value from what is before it, or why none may come |
| `JsonGenerator.Generator.PrefixForKey` | src/common/json/JsonEncode.cpp:419-452 | what separates a key |
| `JsonGenerator.Generator.FinishValue` | src/common/json/JsonEncode.cpp:518-540 | the state after a value |
| `JsonGenerator.Generator.Push` | src/common/json/JsonEncode.cpp:542-549 | refused exactly at the depth limit |
| `JsonGenerator.Generator.Close` | src/common/json/JsonEncode.cpp:162-224 | closes the innermost container of the right kind, or reports the error |
| `JsonGenerator.Generator.Open` | src/common/json/JsonEncode.cpp:150-198 | opens a container where a value is due |
| `JsonGenerator.Generator.StringUnits` | src/common/json/JsonEncode.cpp:226-270 | writes a key where one is due, else a value; refuses lone surrogates |
| `JsonGenerator.Generator.WriteString` | src/common/json/JsonEncode.cpp:454-516 | the escaped text, byte by byte |
| `JsonGenerator.Generator.AppendIndent` | src/common/json/JsonEncode.cpp:371-382 | the indent, level times |
| `JsonGenerator.AcceptsArray` | src/common/json/JsonEncode.cpp:542-549 | an array fits exactly when there is room for it and its elements fit inside |
| `JsonGenerator.WriteAndParse` | src/common/json/JsValueEncode.cpp:61-83 | the written text parses to the value |
| `ScriptHeap.Heap.Collect` | src/common/json/JsGc.cpp:1367-1382 | from any heap, exactly the objects allocated since the last collection and those traced from a root through older ones survive, in list order; no reference to a freed object is left exactly when every older object a new one refers to survives; with nothing new, exactly the reachable objects survive |
| `ScriptHeap.Heap.MarkObject` | src/common/json/JsGc.cpp:422-483 | marking ends on any graph and adds exactly what can be traced through unmarked objects |
| `ScriptHeap.Heap.MarkRoots` | src/common/json/JsGc.cpp:1369-1371 | the same from all roots |
| `ScriptHeap.Heap.Sweep` | src/common/json/JsGc.cpp:1372-1381 | unlinks and frees exactly the unmarked and keeps the list and the byte count exact |
| `ScriptHeap.Heap.Allocate` | src/common/json/JsGc.cpp:384-401 | a new object is linked in front and carries the mark that the next collection treats as live |
| `ScriptHeap.MarksExactly` | src/common/json/JsGc.cpp:422-483 | complete marking reaches exactly what can be traced |
| `ScriptHeap.UnlinkKeepsLinks` | src/common/json/JsGc.cpp:1374-1378 | unlinking keeps the list |
| `ScriptHeapReach.SafeExactlyWhen` | src/common/json/JsGc.cpp:391-391 | no reachable object is lost exactly when no reachable new object is the only holder of an older one |
| `ScriptHeapReach.NoDanglingExactlyWhen` | src/common/json/JsGc.cpp:391-391 | a collection leaves no reference to a freed object exactly when no new object is the only holder of an older one |
| `ScriptHeapReach.SecondCollectionFreesNothing` | src/common/json/JsGc.cpp:1367-1382 | with nothing allocated in between, a second collection frees nothing |
| `ScriptHeapReach.YoungHolderLosesOld` | src/common/json/JsGc.cpp:1368-1368 | a reachable object that a collection frees |
| `ScriptObjectTable.Table.constructor` | src/common/json/JsGc.cpp:934-992 | an object without members: empty slots for the capacity and, if it is not zero, buckets for a load of at most three quarters |
| `ScriptObjectTable.Table.FindEntry` | src/common/json/JsGc.cpp:215-229 | finds the slot of a key, or there is no such member |
| `ScriptObjectTable.Table.Get` | src/common/json/JsGc.cpp:1294-1304 | lookup among the members |
| `ScriptObjectTable.Table.Set` | src/common/json/JsGc.cpp:1252-1292 | a key already there keeps its place and gets the value; another goes to the end |
| `ScriptObjectTable.Table.Insert` | src/common/json/JsGc.cpp:1268-1291 | the part that adds a member |
| `ScriptObjectTable.Table.Fill` | src/common/json/JsGc.cpp:1272-1291 | links the slot into its bucket and the order |
| `ScriptObjectTable.Table.Remove` | src/common/json/JsGc.cpp:1306-1349 | the member goes, the others keep their order |
| `ScriptObjectTable.Table.Unlink` | src/common/json/JsGc.cpp:1317-1343 | takes a slot out of bucket and order and puts it on the free list |
| `ScriptObjectTable.Table.Reserve` | src/common/json/JsGc.cpp:1221-1250 | same members, with a slot and a bucket for the next |
| `ScriptObjectTable.Table.GrowEntries` | src/common/json/JsGc.cpp:265-303 | same members in more slots |
| `ScriptObjectTable.Table.RehashBuckets` | src/common/json/JsGc.cpp:231-263 | same members in new bucket chains |
| `ScriptObjectTable.Table.AllocateEntry` | src/common/json/JsGc.cpp:305-321 | after Reserve there always is a slot: a free one or the next never used |
| `ScriptObjectTable.Table.Overwrite` | src/common/json/JsGc.cpp:1258-1261 | replacing a value changes no key, order or version |
| `ScriptObjectTable.BucketCount` | src/common/json/JsGc.cpp:105-115 | a power of two at a load of at most three quarters |
| `ScriptObjectTable.ObjectIterator.Next` | src/common/json/JsGc.cpp:1186-1218 | the next member in insertion order |
| `ScriptObjectTable.IterateAll` | src/common/json/JsGc.cpp:1186-1218 | an iteration yields each member once, in insertion order |
| `ScriptObject.HashCodeUnits` | src/common/json/JsGc.cpp:27-44 | the hash depends on the code units only, not on their encoding |
| `KeyHashes.LastUnitCounts` | src/common/json/JsGc.cpp:27-44 | keys that differ in their last unit alone have different hashes: both steps of the hash can be undone |
| `KeyHashes.FnvSnoc` | src/common/json/JsGc.cpp:27-44 | a unit more is the hash of the units before, exclusive or the unit, times the FNV prime, modulo 2^64 |
| `ScriptObject.StringEquals` | src/common/json/JsGc.cpp:59-92 | equality of code units across encodings |
| `ScriptObject.ChainsInsert` | src/common/json/JsGc.cpp:1278-1280 | every bucket chain holds exactly the slots in use that hash to it, after an insertion |
| `ScriptObject.ChainsRemove` | src/common/json/JsGc.cpp:1317-1321 | and after a removal |
| `ScriptObject.MembersRemove` | src/common/json/JsGc.cpp:1322-1341 | dropping a slot from the order removes just that member |
| `SlotLists.LinkedRemove` | src/common/json/JsGc.cpp:1317-1331 | unlinking a slot anywhere keeps the list linked |
| `SlotLists.BackedRemove` | src/common/json/JsGc.cpp:1327-1331 | and walkable backwards |
| `SlotLists.LinkedAppend` | src/common/json/JsGc.cpp:1281-1288 | so does appending one |

## Left out

- Sockets, TLS, epoll, signals, threads and clocks; the eventfd is a counter, poll a step, a transport takes every byte.
- Coroutine machinery and the object pools.
- HTTP/2: stopping a connection, failed sends, stream close and deletion in their order of object lifetime (removal of a stream is one step), HPACK, keep-alive and graceful shutdown; the two directions share the stream states but are separate models.
- Http2SendProofs.SendDoneKeeps: a frame is written in full; partial and failed writes, which mark the entry failed, are not modelled.
- Http2SendObject.SendSide.HandleSendDone: likewise.
- Http2Send: streams and pending entries are values in tables rather than linked objects; `SendSide` updates those tables in place.
- Http2FrameReader.FrameReader.Feed: whether a parameter is applied, an answer can be queued, a window has room and a new stream is admitted is a parameter that sees all earlier events, and so is what queued entries do when credit comes; nothing else is sent, and no frame finishes, between the reads; the bytes at hand are a sequence here and an array in `Http2ReadBuffer`.
- Http2StreamTable.NextPow2: the 64-bit overflow of the doubling for more than 2^62 streams (the source would not terminate) is not modelled; the slot mask is the remainder by a power of two.
- Http2StreamTable: the multiplicative hash of a stream identifier is modelled, but nothing depends on its value.
- TimerQueue.TimerQueue.Remove: a node's deadline is constant, so an entry posted again with another deadline is a new node; the test for the root among the moved nodes, which cannot succeed after the last slot was cleared, is not modelled.
- EventLoopWakeup: a weak compare-and-swap that fails spuriously is a retry; memory ordering is sequentially consistent.
- AsyncMutex: the owner-thread assertions.
- FdWaiters: local waiters only occupy and leave slots; the descriptor object outlives its waiters.
- Chunked: `length()`, and the trailer block, which is left to the header parser. `read_body` consults the size between calls and is not part of the model.
- ChunkedWire.ChunkedWriter.FinishResponse: the trailer block is given as bytes.
- JSON: error messages and offsets; a float keeps its token text, whether it is in range is a parameter, and floats are not written; allocation failure.
- JsonStream: a container is attached to the one around it when it closes, where the source links it at its opening; nothing reads it in between except has_result().
- JsonParsers.StreamParser.CloseContainer: a refused close leaves the stacks as they were, where the source has popped them; the error state that follows ends the parse either way.
- JsonGenerator.Generator.EncodeValue: requires values without floats, binaries and exceptions, whose keys are distinct as in every heap object; the sink takes every byte, and the ValidateUtf8 option, which never rejects what a heap string is written as (`BackAndThere`), is not modelled.
- ScriptHeap.Heap.Collect: requires that references lead to linked objects; objects are cells of a store known by address, with the references their kind traces as one list.
- ScriptObjectTable: the fields of a slot are kept in one list per field, a cleared key is empty, and the cached hash of a string is not modelled.
- ScriptObjectTable.ObjectIterator.Next: stated for objects whose keys do not change meanwhile; the snapshot taken after a change is left out.
- IoBufChain: reference counts and shared storage; a buffer is its readable bytes and its writable room, the node list a sequence.
- Request-line and header-line parsing, `HeaderMap`, `BufPool`, `WaitGroup`, the script interpreter: simpler relatives of what is modelled, or not part of the core.
