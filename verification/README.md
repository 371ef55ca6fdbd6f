# Verified model of the room backlog

A room of the hub keeps its recent messages in a lock-free linked list. Connections append to it
by compare-and-swap on `newest`; whoever appends also trims it at `oldest`, by compare-and-swap
against a byte counter that is updated separately; each connected client has a listener that walks
the list with a private pointer and is cut off, by a marker entry, when it has fallen behind. This
project models that list, the listeners and senders behind it, the membership of a room and the
atomic integers below, and proves what they guarantee over every interleaving.

| file | what it models |
|---|---|
| `SafeVals.dfy` | the atomic integers and pointers, with the complement form of subtraction |
| `Backlog.dfy` | the specification: a history of messages and the suffix that a byte limit retains |
| `HeapQueue.dfy` | the list over real nodes: `Append` and `trim` one call at a time, listeners between calls, and the plain history with integer cursors that they refine |
| `QueueMachine.dfy` | the list as a state machine: any number of goroutines in `Append` and `trim`, one action per atomic operation |
| `QueueInvariant.dfy` | what every interleaving keeps |
| `AppendOrder.dfy` | real-time order, each sender's order, lock-freedom |
| `Contention.dfy` | failed CAS attempts, goroutine by goroutine and at worst; what a goroutine can do alone |
| `Trimming.dfy` | what racing trimmers guarantee |
| `Runs.dfy` | runs put together from what one goroutine can do while the others stand still |
| `OverTrim.dfy` | exactly when `oldest` can run off the list, and how much racing trimmers can take off too many |
| `Conservation.dfy` | exactly when the byte counter agrees with the entries that have not been removed |
| `Drift.dfy` | what a counter that disagrees does to the room in the long run |
| `Counter.dfy` | exactly when the byte counter is bounded while appenders are at work |
| `Ledger.dfy` | the byte counter at the finest interleaving, and that it fits an int64 |
| `Solo.dfy` | with one goroutine the state machine keeps the backlog of `Backlog.dfy` |
| `Delivery.dfy` | appenders, listeners, senders and connections together |
| `Room.dfy` | who is in the room and how many are counted |
| `Server.dfy` | the read loop of one connection |
| `Sums.dfy` | adding up a measure over all goroutines |

## How the state machine reads the code

`QueueMachine.Thread` has one value for each atomic operation of `Append` (lines 84 to 95) and
`trim` (lines 55 to 71) of `hub/messagequeue.go`, holding the local variables that are still
needed; `QueueMachine.Move` performs it. Line 69 is two steps, because the size is read before it
is subtracted. Memory is sequentially consistent and pointers are never reused. Entries are
numbered in the order in which they became `newest`; `next` pointers, messages and WaitGroups are
stored and read as in the code, so that they agree with this order is a result, not an assumption.
The fields from `log` on record what happened and influence nothing. A nil dereference or a panic
ends the process.

`Fine` is that machine. `AtomicPublish` takes lines 85 to 93 as one step and leaves trim alone;
`AtomicRunIsFineRun` shows that its runs are among the fine ones, so results about `Fine` hold for
both. T is the number of goroutines, M a bound on the size of an entry.

Main results:

- Nothing is lost by giving up after a failed CAS: while the counter is over the limit some
  goroutine will recheck it, still holds an entry it has taken off, or is about to end the process
  on a nil `oldest`; and when all have finished it is within the limit.
- With atomic publishing, `oldest` stays on the list in all runs if and only if
  `maxsize >= (T - 1) * M`, and the same condition is exactly what conserves the bytes. At the
  finest interleaving it stays on the list if and only if there is a single goroutine and the
  limit is not negative: a second goroutine can trim an entry that has been claimed but not linked
  yet. Nor are the bytes conserved there with a second goroutine, unless all messages are empty: an
  entry that is trimmed before its message is stored is subtracted as if it were. So the comment
  in front of `trim` ("safe for concurrent calls") promises more than the code does; the model
  follows the code.
- Bytes that went astray in this way never come back. With two goroutines and messages that need
  not be empty, the counter at rest can be off by any number of bytes up to the limit, whatever the
  limit is. A room in which it is off by all of it keeps nothing any more: at every later rest with
  `oldest` on the list the backlog is empty.
- With atomic publishing, racing trimmers remove less than M bytes each beyond what the limit asks
  for, and no smaller bound holds.
- While appenders are at work the byte counter is bounded over all runs if and only if T <= 2,
  whatever the limit and at either grain. Three goroutines suffice to raise it above any bound: two
  of them append and then give up after a lost CAS, because the third has taken the same entry
  off, so one of the two new entries stays. "Let him do the rest" (hub/messagequeue.go:65) thus
  restores the limit only once appending pauses.
- Every client is sent one contiguous slice of the room's single log, from the entry that was
  oldest when its listener started; at rest it has everything to the end unless it quit or was cut
  off.
- Whatever the others have left undone, a goroutine that runs alone completes its call within seven
  steps for each entry on the list and a few more, unless `oldest` has run off the list or does so.
- From every state in which its sender is at work, a client can be brought up to date by moves of
  its own; a write can succeed and can fail whenever there is one, a read can fail at any time, and
  a member of the room can be removed at any time. Beside the safety results, these say that the
  model does not rule out what the code can do.
- A listener that quits leaves its channel open. A sender that waits on it then waits forever; every
  room can get there, and at rest that is exactly what tells such a sender from one with nothing to
  send.
- Sequentially the backlog is the longest suffix of the whole history that fits, and the state
  machine with one goroutine agrees. The list over real nodes, with any number of listeners that
  hold on to some of them, makes for each listener exactly the runs of the plain history with an
  integer cursor.

## Model

| member | source | states |
|---|---|---|
| SafeVals.FlipComplements | hub/safevals.go:34 | flipping the n bits of x one by one gives 2^n - 1 - x |
| SafeVals.SubU32IsExact | hub/safevals.go:33-35 | adding the complement of x-1 is subtraction with borrow, also for x = 0 |
| SafeVals.SubU32IsModular | hub/safevals.go:33-35 | so `sub` is subtraction modulo 2^32 |
| SafeVals.SubI64IsExact | hub/safevals.go:55-57 | the int64 form is exact whenever the difference fits, and off by one word otherwise |
| SafeVals.SubI64IsModular | hub/safevals.go:55-57 | so it is two's-complement subtraction |
| SafeVals.RunU32Conserves | hub/safevals.go:29-47 | any sequence of add, sub, inc, dec and load, hence any interleaving, leaves initial value + added - subtracted modulo 2^32 |
| SafeVals.RunI64Conserves | hub/safevals.go:51-69 | the same in two's complement for int64 |
| SafeVals.SafeUint32.Sub | hub/safevals.go:33-35 | the method updates the word in place to the wrapped difference and returns it |
| SafeVals.SafeInt64.Sub | hub/safevals.go:55-57 | the same for the byte counter's type |
| SafeVals.SafePointer.Cas | hub/safevals.go:80-82 | succeeds exactly when the old value matched, and otherwise changes nothing |
| Backlog.TrimAfterAppend | hub/messagequeue.go:54-73 | trimming after one more append restores the longest suffix that fits |
| Backlog.IncrementalTrimIsLongestSuffix | hub/messagequeue.go:54-97 | trimming after each append retains the longest suffix of the whole history that fits |
| Backlog.IncrementalEqualsBatch | hub/messagequeue.go:54-97 | which is what one trim of the full history would retain |
| Backlog.EqualSizesRetained | hub/chatroom_test.go:111-130 | n messages of one size leave the last min(n, limit / size), and that many times the size in bytes |
| HeapQueue.MessageQueue.constructor | hub/messagequeue.go:124-133 | for any limit a new queue is empty, with one unfilled entry that is both oldest and newest and nothing in the counter |
| HeapQueue.MessageQueue.TrimOne | hub/messagequeue.go:56-71 | with nobody interfering, one round of trim takes off exactly the oldest entry, its bytes and its link |
| HeapQueue.MessageQueue.Trim | hub/messagequeue.go:54-73 | with nobody interfering, trim stops at the first entry from which the rest fits |
| HeapQueue.MessageQueue.Fill | hub/messagequeue.go:80-92 | the empty entry at the end receives the message and links to a fresh empty one |
| HeapQueue.MessageQueue.Publish | hub/messagequeue.go:80-95 | the entry is counted before it is marked ready, and the list again spells out the history |
| HeapQueue.MessageQueue.Append | hub/messagequeue.go:75-97 | nil panics and changes nothing; any other message extends the history, and the backlog is again the longest suffix that fits |
| HeapQueue.BacklogIsBatchTrim | hub/messagequeue.go:54-97 | the backlog of the list equals one trim of the full history |
| HeapQueue.EqualSizesBacklog | hub/chatroom_test.go:111-130 | the expectation of the backlog test, for all sizes, limits and counts |
| HeapQueue.Listener.constructor | hub/messagequeue.go:99-100 | a listener starts at the base of the history |
| HeapQueue.Listener.Receive | hub/messagequeue.go:101-115 | at the marker the listener closes, at the unfilled entry it blocks and nothing changes, and at any other it either sends that entry's message or, when the select takes the quit case, ends without sending; the integer cursor does the same |
| HeapQueue.Listener.Follow | hub/messagequeue.go:116 | following `next` after message i leads to the entry of message i+1 if i has not been trimmed and to the marker otherwise |
| HeapQueue.Listener.Undisturbed | hub/messagequeue.go:99-118 | appends and trims do not disturb a listener that holds a node, trimmed or not |
| HeapQueue.AbandonedDeliversOnce | hub/messagequeue.go:101-117 | whatever is appended and trimmed meanwhile, a listener left on a trimmed entry that is not told to quit at its select delivers exactly that one message and ends closed |
| HeapQueue.QuitEnds | hub/messagequeue.go:111-113 | a listener that is told to quit at its select ends there, whatever happens later |
| HeapQueue.KeepsUp | hub/messagequeue.go:101-117 | k times around the loop take a listener on an entry of the backlog from message i to message i+k |
| HeapQueue.WaitsAtEnd | hub/messagequeue.go:107 | at the end of the history it waits, told to quit or not, until somebody appends |
| HeapQueue.CursorMovesForward | hub/messagequeue.go:99-118 | in every run of the plain history, position and history only grow, and only a cursor behind the base is closed |
| HeapQueue.Perform | hub/messagequeue.go:54-118 | an append or a listener's move over real nodes changes the plain history and cursor that they stand for exactly as the plain event does |
| HeapQueue.PerformAll | hub/messagequeue.go:54-118 | so every run of appends and moves of any number of listeners over real nodes is, for each listener, the run of the plain history made of the appends and its own moves |
| HeapQueue.CatchUp | hub/messagequeue.go:101-117 | over real nodes, a listener on an entry of the backlog delivers exactly the next k messages and stands on the entry after them, the unfilled one when these were all |
| HeapQueue.Listener.DeliveredSlice | hub/messagequeue.go:108-116 | what the listener sent on its channel is the history from its start to its cursor |
| QueueMachine.AtomicRunIsFineRun | hub/messagequeue.go:85-93 | every run with atomic publishing is a run of the finest interleaving |
| QueueInvariant.ApplyKeepsInv | hub/messagequeue.go:54-97 | every atomic step keeps the shape of the list, the ownership of claimed entries and what each goroutine knows |
| QueueInvariant.ApplyGrows | hub/messagequeue.go:54-97 | claims, removals and messages are never taken back, a stored link never becomes nil again, a finished entry stays finished, and a nil `oldest` stays nil |
| QueueInvariant.OldestOnlyMovesForward | hub/messagequeue.go:57-60 | `oldest` moves to the next entry or off the end, only by a successful CAS, and is never the marker |
| QueueInvariant.OneFillerOneRemover | hub/messagequeue.go:68-92 | no entry is filled by two goroutines or accounted for by two removers |
| QueueInvariant.StaleWasPassed | hub/messagequeue.go:69-71 | an entry that points to the marker has been passed by `oldest` |
| QueueInvariant.DoneExactlyOnce | hub/messagequeue.go:90-95 | a WaitGroup goes from 1 to 0 once, by the owner of the entry, when link and message are in place |
| QueueInvariant.OnlyNilCrashes | hub/messagequeue.go:57-59 | the process ends exactly on a nil message or on following a nil `oldest` |
| AppendOrder.ReturnedBeforePrecedes | hub/messagequeue.go:80-97 | an append that returned before another was called precedes it in the log |
| AppendOrder.CallsAreRecorded | hub/messagequeue.go:75-97 | for each goroutine the recorded calls outnumber the recorded returns by one while it is at work, and by none otherwise |
| AppendOrder.ReturnsMatchCalls | hub/messagequeue.go:75-97 | each return is that of the latest call of its goroutine, and names the entry that this call put into the log |
| AppendOrder.SendOrderKept | hub/groupchatserver.go:72-85 | the messages of each client are in the log completely and in the order sent, except for one that is still before its CAS |
| AppendOrder.FailedAttemptsBounded | hub/messagequeue.go:83-88 | after N successful appends by T goroutines, failed and doomed CAS attempts together are at most (T-1)*N |
| AppendOrder.TrimAttemptsBounded | hub/messagequeue.go:60-67 | lost attempts on `oldest` are at most the calls returned, so all attempts together are at most the entries removed plus the calls returned |
| Contention.OneLossPerCall | hub/messagequeue.go:60-67 | in every part of every run, a goroutine loses at most as many attempts on `oldest` as calls of it return: a call that has lost one is over |
| Contention.AttemptsAreCounted | hub/messagequeue.go:60-88 | the counts of lost attempts on `newest` and on `oldest` are exact for every run |
| Contention.ReturnsAlone | hub/messagequeue.go:54-97 | obstruction freedom: from every reachable state a goroutine that runs alone returns within 7 * (entries not removed + 1) + 18 steps, or follows a nil `oldest` |
| Contention.AppendsAlone | hub/messagequeue.go:75-97 | from every reachable state an idle goroutine can append any message alone, which then ends the log; nil ends the process and changes nothing else |
| Contention.FailedAttemptsTight | hub/messagequeue.go:83-88 | for all T, N and limits from 0 on, a run of N appends in which (T-1)*N attempts fail, so the bound is attained |
| Trimming.OverLimitIsBeingHandled | hub/messagequeue.go:60-67 | whenever the counter is over the limit, some goroutine will recheck or still holds a removal, as the comment claims, or is about to end the process on a nil `oldest`; while `oldest` is on the list it is one of the first two |
| Trimming.WithinLimitAtRest | hub/messagequeue.go:53-73 | once all appenders have finished, the counter is within the limit |
| Trimming.NeverOverTrims | hub/messagequeue.go:54-97 | with atomic publishing and maxsize >= (T-1)*M, `oldest` never passes the unfilled entry, and with a armed trimmers more than maxsize - M*(T-a) bytes are live |
| Trimming.RetentionBound | hub/messagequeue.go:54-73 | with atomic publishing, in every reachable state nothing was removed or more than maxsize - M*T bytes are live |
| Trimming.BytesConserved | hub/messagequeue.go:60-93 | with atomic publishing and while `oldest` is on the list, the counter is the bytes on the list plus those that removers still owe |
| Trimming.ListAtRest | hub/messagequeue.go:54-97 | with atomic publishing and while `oldest` is on the list, at rest the list has the shape of the sequential one: marker links below `oldest`, filled entries linked in order above, one empty entry, exact counter within the limit |
| OverTrim.TooLittleRoomOverTrims | hub/messagequeue.go:55-69 | for all T, M and maxsize < (T-1)*M, a run in which T-1 goroutines stall before the subtraction and `oldest` becomes nil |
| OverTrim.AtomicSafeIffRoom | hub/messagequeue.go:54-97 | with atomic publishing `oldest` stays on the list in all runs if and only if maxsize >= (T-1)*M |
| OverTrim.RetentionBoundIsTight | hub/messagequeue.go:54-73 | for all T, M and n >= T, with maxsize = n*M - 1 a run with atomic publishing has removed T entries and kept maxsize - M*T + 1 bytes, so the retention bound is attained |
| Conservation.TooLittleRoomLosesBytes | hub/messagequeue.go:69-93 | below that limit a run ends with the counter short by the overhead of an entry that was never added |
| Conservation.AtomicConservesIffRoom | hub/messagequeue.go:60-93 | with atomic publishing the bytes are conserved in all runs if and only if maxsize >= (T-1)*M |
| OverTrim.UnlinkedEntryRunsOff | hub/messagequeue.go:85-91 | for all limits and T >= 2, a fine run in which a claimed but unlinked entry is trimmed and `oldest` becomes nil |
| OverTrim.FineSafeIffAlone | hub/messagequeue.go:54-97 | at the finest interleaving `oldest` stays on the list in all runs if and only if T = 1 and maxsize >= 0 |
| Conservation.HalfFilledEntryIsLost | hub/messagequeue.go:69-93 | for all limits and T >= 2, a fine run that trims an entry between lines 91 and 92 and puts the books M - overhead out of balance, with `oldest` on the list: what is still to be added outweighs what is still to be subtracted |
| Trimming.Books | hub/messagequeue.go:60-93 | in every balanced state in which at most the claimed entries have been removed, counter and bytes to be added are the bytes not removed, those to be subtracted and those gone astray |
| Ledger.ExcessAfter | hub/messagequeue.go:69 | no step brings bytes back that went astray, and while at most the claimed entries have been removed only reading the size of an entry without its message lets any go |
| Conservation.FineConservesIff | hub/messagequeue.go:60-93 | at the finest interleaving the counter agrees with the entries not removed in all runs if and only if maxsize >= (T-1)*M and either T = 1 or M is just the overhead, that is, all messages are empty |
| Conservation.FineConservesOnListIff | hub/messagequeue.go:60-93 | demanded only while `oldest` is on the list, it holds in all runs if and only if T = 1 or M is just the overhead, with any limit |
| Drift.FinishAlone | hub/messagequeue.go:54-73 | a goroutine that trims while the others stand outside trim ends within the limit with `oldest` on the list, as long as the limit exceeds what is or may go astray |
| Drift.CounterDrifts | hub/messagequeue.go:54-97 | for T >= 2, M > overhead and every number of bytes from 0 up to the limit, a fine run to a rest at which the counter is that much above the backlog, with `oldest` on the list |
| Drift.CanRestIffWithinLimit | hub/messagequeue.go:54-97 | these are exactly the amounts by which it can be off at such a rest |
| Drift.DriftStays | hub/messagequeue.go:54-97 | in every continuation, at every rest with `oldest` on the list the counter is still off by as much or more, and the backlog has that much less room |
| Drift.BacklogIsLost | hub/messagequeue.go:54-97 | for T >= 2, M > overhead and all limits from 0 on, a room can come to a rest after which the backlog is empty at every later rest with `oldest` on the list |
| Counter.UnboundedFromThree | hub/messagequeue.go:54-97 | for all limits, T >= 3 and either grain, a run that takes the counter above any given bound |
| Counter.BoundedUpToTwo | hub/messagequeue.go:54-97 | for all limits, T <= 2 and either grain, an explicit bound on the counter in all runs |
| Counter.BoundedIffTwo | hub/messagequeue.go:54-97 | the counter has a bound over all runs if and only if T <= 2 |
| Ledger.AddedOnceSubtractedOnce | hub/messagequeue.go:69-93 | at the finest interleaving what was added is exactly the claimed entries less those on their way, and what was subtracted is at most the removed ones less those on their way |
| Ledger.CounterFits | hub/messagequeue.go:47-51 | while the bytes appended plus one entry overhead stay below 2^63 the int64 counter never wraps |
| Solo.SoloBacklogIsLongestSuffix | hub/messagequeue.go:54-97 | whenever the only goroutine has returned, the state machine's list is the longest suffix of the history that fits |
| Delivery.DeliversASlice | hub/messagequeue.go:99-118 | in every interleaving, what a listener delivered is one contiguous slice of the log, and one that was closed ends with a message that has left the backlog |
| Delivery.DeliversOnlyDone | hub/messagequeue.go:107-114 | every delivered message is that of an entry whose appender has marked it done |
| Delivery.StartsAtOldest | hub/messagequeue.go:100-107 | the slice starts at the base of the moment the listener starts; a nil `oldest` ends the process |
| Delivery.CompleteAtRest | hub/messagequeue.go:101-117 | with all appenders finished and a ready receiver, a listener that cannot move was told to quit, was closed behind the base, or delivered everything to the end |
| Delivery.ClientProgresses | hub/chatroom.go:44-64 | every step of a listener, sender or quit watcher lowers a bound on the steps that its client has left |
| Delivery.ComesToRest | hub/chatroom.go:44-64 | so in every run in which nothing is claimed, a client makes at most the steps it had left at the start |
| Delivery.OnlyNilOldestPanics | hub/messagequeue.go:102-110 | a listener never meets a nil message, and a nil entry only at its start |
| Delivery.WritesASlice | hub/chatroom.go:50-64 | what was written to a connection is a slice of the log, at most one message behind its listener |
| Delivery.ClientsAgree | hub/chatroom.go:88-100 | any two clients agree with each other and the log on every position both were sent |
| Delivery.NoWriteAfterError | hub/chatroom.go:56-60 | after a write error the sender attempts no further write, whatever happens |
| Delivery.WriteCanSucceed | hub/chatroom.go:52-60 | in every reachable state a sender with a message in hand can write it, and then everything delivered has been written |
| Delivery.WriteCanFail | hub/chatroom.go:51-60 | or fail to, also while the read side is fine: what was written stays, the sender goes away and the client is closed |
| Delivery.ReadCanFail | hub/chatroom.go:46-49 | the read of a client can fail at any time and its quit signal be given, and nothing else changes |
| Delivery.ListenerRuns | hub/messagequeue.go:100-116 | whatever its sender is doing, a listener gets by moves of its own to its select, to the unfilled entry, or to its end |
| Delivery.CutOffSenderLeaves | hub/chatroom.go:51-63 | the sender of a listener that was cut off goes away and closes the client |
| Delivery.CatchesUp | hub/chatroom.go:42-64 | from every state in which its sender is at work and its listener has not quit, moves of the client alone lead to a state in which all that can be delivered has been written; the process ends only if there is no `oldest` to start from |
| Delivery.BlockedAtEnd | hub/messagequeue.go:107 | a listener on the unfilled entry, told to quit or not, stays there in every continuation without a claim |
| Delivery.AllIsWritten | hub/chatroom.go:42-100 | for all messages and limits from 0 on, a run appends them and writes all of them to client i |
| Delivery.LastWriteFails | hub/chatroom.go:51-60 | and one writes all but the last, fails at that one, and ends with client closed and sender gone |
| Delivery.ShutsDown | hub/chatroom.go:46-63 | when nothing is left to do, a sender is gone if and only if a write failed or its listener was cut off, and waits for a message otherwise; a gone one has closed its client and given the quit signal, and after a failed write the listener is at an end or waiting |
| Delivery.LeftForGood | hub/messagequeue.go:110-112 | a sender that waits for a message of a listener that has quit does so in every continuation |
| Delivery.QuitLeavesSender | hub/messagequeue.go:110-114 | whenever a listener has a message to hand over, whatever its sender is doing, it can end instead; a sender that waits is then left behind |
| Delivery.SenderIsLeftBehind | hub/chatroom.go:46-64 | so in every room with an appender, for every client, a run leaves its sender behind |
| Delivery.WaitsForeverIffQuit | hub/chatroom.go:46-64 | with client and appenders at rest, a sender waits in every continuation if and only if its listener has quit: any other gets the next message |
| Room.CountsMembers | hub/chatroom.go:39-86 | with fewer than 2^32 joins, over every interleaving, the connected counter is the members less the joins not yet counted modulo 2^32, and each connection is closed at most once, exactly when it left |
| Room.ExactAtRest | hub/chatroom.go:65-85 | when no join is under way the counter is the number of members |
| Room.LegalIffInOrder | hub/chatroom.go:39-86 | the runs are exactly the orders that the code leaves open: an insertion after its join has begun, one count and any removals after the insertion |
| Room.AnyMemberCanLeave | hub/chatroom.go:72-86 | after every run any member can be removed next, counted or not: closed once, out of the map, and the counter one less modulo 2^32 |
| Room.RemovalsOvertakeCounts | hub/chatroom.go:39-86 | for all k <= n < 2^32, a run in which n joins have inserted their clients and k of them have been removed before any was counted, so that the counter has wrapped around to -k |
| Room.Chatroom.AddClient | hub/chatroom.go:39-70 | hands out the next id, adds the client under it, even one that is a member already, and counts it |
| Room.Chatroom.DelClient | hub/chatroom.go:72-86 | closes, removes and uncounts a member; for anybody else nothing happens |
| Room.Chatroom.Close | hub/chatroom.go:102-113 | empties the room, closing every client once for each id it has |
| Server.ReadLoop | hub/groupchatserver.go:72-85 | exactly the text messages before the first failing read enter the history, each as it was read and in the order read |

## Left out

- HeapQueue.MessageQueue.Append: requires a limit that is not negative, because the first append would otherwise trim the unfilled entry (`OverTrim.FineSafeIffAlone` and `OverTrim.AtomicSafeIffRoom` include negative limits), and that the limit plus one entry stays below 2^63, where the byte counter would wrap around.
- HeapQueue.Perform: the appended messages are those that `HeapQueue.MessageQueue.Append` accepts; the same holds for `HeapQueue.PerformAll`.
- HeapQueue.MessageQueue.TrimOne: nobody interferes, so the CAS always succeeds; losing it is modelled in `QueueMachine`.
- HeapQueue.MessageQueue.Trim: nobody interferes, so the CAS always succeeds; losing it is modelled in `QueueMachine`.
- Trimming.BytesConserved: holds only with atomic publishing and while `oldest` is on the list; `Conservation.AtomicConservesIffRoom` and, at the finest interleaving, `Conservation.FineConservesIff` say exactly which configurations conserve the bytes in all runs.
- Room.Chatroom.AddClient: the goroutines that it starts are modelled in `Delivery`, and its three atomic parts as separate actions in `Room.Apply`; joins beyond 2^32, where ids repeat, are left out.
- Room.Chatroom.Close: the goroutines that it starts run one by one; their interleaving with joins and removals is in `Room.Apply`.
- Server.ReadLoop: nobody else appends between two reads, which `AppendOrder.SendOrderKept` covers; the loop of the code is endless without a failing read, so one is assumed; the pause between messages and the joining and leaving around the loop are not part of it.
- Weak memory effects: memory is sequentially consistent, and the plain copies at hub/messagequeue.go:100 and hub/messagequeue.go:116 are atomic reads.
- The value of QUEUE_ENTRY_OVERHEAD: any positive number.
- `client.Close` checks and closes in two steps; here it is one, and nothing is claimed about closing twice at a finer grain.
- Clean-up of goroutines: `Delivery.WaitsForeverIffQuit` says which senders are left behind at rest; how long one is left that is not at rest depends on the connection, of which nothing is claimed.
- Deadlines, pauses and sockets: a write succeeds or fails, a read can fail at any time.
- A closing room: a handler that already holds the room can still join afterwards; nothing is claimed about when the last client leaves.
- HTTP handling, the room cache and its list of names, flags and passwords: plumbing over libraries that are not part of this model.
- The web pages, the bookmarklet and the stress test: they hold no shared state of a room.
