# ZQim: a verified model

ZQim is an instant messenger: clients hold one TCP connection to a connection server (`comit`),
which stores every message before acknowledging it, passes it to the receiver if the receiver is
connected somewhere, and repeats it until the receiver acknowledges. This project models that
path, from the bytes on the wire to the rows in the database, and proves what it keeps.

`dafny verify dfyconfig.toml` checks everything.

| file | what it models |
|---|---|
| MinHeap.dfy | the indexed binary heap of pending messages, with Go's `container/heap` algorithms over the repository's `Less`, `Swap`, `Push` and `Pop` |
| Connections.dfy | the per-connection context that indexes the heap, the connection table, and a connection's read loop |
| RetrySpec.dfy | the retry queue on maps, without a heap, and what all its runs keep |
| TickSpec.dfy | a tick on values: the queue and the index by receiver and id, turn by turn, with the messages that take others off the queue |
| Thefts.dfy | which messages a tick will steal, when it refines the tick on maps and when it panics, told from queue and index before it |
| AckManage.dfy | the retry manager: heap, contexts and connection table together; each arm of its event loop is a step of RetrySpec, a tick turn by turn a run of TickSpec |
| ManagerRuns.dfy | whole runs of the retry manager, with the bounds of RetrySpec for what it really sends |
| Frames.dfy, NetWorkManage.dfy | wire frames, their printing and incremental parsing; the client's decoder |
| Unpack.dfy | the server's frame parser as written, and exactly when it agrees with the frame format |
| OneTable.dfy, GroupTables.dfy, Notifies.dfy | the database tables as logs of statements, and what every log keeps |
| Store.dfy, FanOut.dfy, Handles.dfy | the shared database, the group fan-out, and the request handlers that append to the logs |
| Cluster.dfy | several connection servers on one database, their handlers interleaved statement by statement: all stay honest |
| SqlRows.dfy, Decimal.dfy, MessageId.dfy | INSERT texts and message ids as decimal text, and reading them back |
| Membership.dfy | friend and group membership behind the Redis cache |
| PercentDecoding.dfy | the two-pass percent-decoder, against section 2.1 of RFC 3986 |
| EventBus.dfy | the client's event bus and callbacks that unsubscribe while it runs |
| ComitService.dfy | round-robin choice of a connection server |
| Words.dfy, Collections.dfy, Division.dfy | machine words; facts about sequences, sets, quotients and remainders |

Each stateful part is a class whose methods are proved against functions and step relations on
values; the whole-run theorems are lemmas about those. The database is the exception to
"one handler, one step": its theorems speak of arbitrary logs of single statements, so they hold
for every interleaving of handlers, not only for handlers that run one after another.

## Assumptions

- Within one tick of the retry manager the clock and the connection table do not change, and
  whether a write goes through is settled per message. Between the manager's atomic parts (`Pop`,
  `Retry`, `Push`, `Delete`, `OnConnect`, `OnDisconnect`) anything may happen: each of them keeps
  `Valid` on its own.
- A notification id is the table's auto-increment and is never given out twice.
- In `Clusters.Run` handlers are cut at their database statements. What a handler does between two of
  them touches only its own server's records, and counts as part of the statement before or after it.
- `NextTcpServer` is stated for a call on its own. The source adds to the counter atomically under a
  read lock and reads it again afterwards; `OverlapIff` says exactly when calls that overlap still
  choose the positions of a row of calls.
- A connection starts with an empty context and authenticates as one user, and one that has left
  the table does not come back with its old context. The source writes index 0 into a message
  before it finds the receiver gone (comit/manage/ackmessage.go:42-46), so a stale context could
  point at someone else's slot.
- A connection's id is the user it is registered for.
- Each cache operation together with its table operation is atomic. `WriteAfterChecks` says exactly
  what happens to the cache otherwise.

## Where the code and its intent differ

- The server's parser tests for 5 header bytes where the header has 7. `UnpackAgreesOn` gives the
  exact condition, for a buffer and the stale bytes behind it, under which it still parses correctly;
  `ReadsAgreeIff` gives it for a whole connection, and `DeliversIff` turns it into a condition on
  where reads end.
- The contexts index one message for each receiver and id, and the queue may hold several: a client
  picks the id, and one-to-one and group messages share it. Giving one up takes the indexed one off
  the heap, and the tick, which planned its turns before, can read slot 0 of an empty heap
  (`NamesakesFromEmpty`). `Tick` computes the tick on maps but for the messages stolen this way.
  `StolenAreDoomed` says before the tick which these are: one the index holds, if the first to change
  the index at its key is given up (`Early`), or one sent again, if the next to change it is given up
  (`Late`). From this `RefinesIff` tells exactly when the tick is the tick on maps, and `StarvedIff`
  exactly when it panics. `TickIsRun` carries the bounds on runs over to all ticks.
- An emit walks a list that its callbacks may change. `CalledOnceIff` says exactly when every
  subscriber is still called once: no callback unsubscribes one whose turn is yet to come, until one
  of them clears the event.
- A check between a writer's invalidation of the cache and its write puts a stale set back
  (`RefillRace`); `WriteAfterChecks` says exactly when.
- Message ids are digits of a user id followed by digits of a clock; `SameRekIff` says exactly which
  pairs of them collide, `RekIsInjective` that none do between 2001 and 2286.
- The acknowledgement of a refused one-to-one message carries the type of group messages
  (`AckFor`), and the bulk deletion's reply uses 1 for success and 0 for failure, opposite to a
  single acknowledgement (`DeleteManyHandle`).
- A forwarded group message stops at the first receiver that has left (`Grouptranfer`).
- A group message to a group without other members is refused, because an INSERT without rows is
  not a statement (`GorupMessageHandle`).
- `unescapePath` ignores its mode argument.

## Model

| member | source | states |
|---|---|---|
| HeapOrder.RootIsEarliest | comit/manage/ackmessage.go:95-98 | in heap order the root carries the earliest deadline of all |
| MinHeaps.MinHeap.Swap | comit/manage/ackmessage.go:99-104 | two slots exchange their messages and every message still knows its own slot |
| MinHeaps.MinHeap.Push | comit/manage/ackmessage.go:105-111 | the message is appended and its index is the new last slot |
| MinHeaps.MinHeap.Pop | comit/manage/ackmessage.go:129-136 | the last message is taken off and marked with index -1, no other index changes |
| MinHeaps.MinHeap.HeapPush | comit/manage/ackmessage.go:48-48 | heap order and indices hold again, with exactly the new message added; it comes before the others of its deadline |
| MinHeaps.MinHeap.HeapPop | comit/manage/ackmessage.go:77-80 | takes a message of earliest deadline, exactly that one, and keeps order and indices |
| MinHeaps.MinHeap.HeapRemove | comit/manage/ackmessage.go:113-119 | removal at any slot takes exactly the message there and restores heap order although `Less` is not strict |
| MinHeaps.MinHeap.DownOrUp | comit/manage/ackmessage.go:95-104 | after replacing slot i, sifting up is needed only if sifting down did not move, ties included |
| MinHeaps.MinHeap.Delete | comit/manage/ackmessage.go:113-119 | a message with index -1 changes nothing, otherwise exactly the occupant of its slot leaves |
| Connections.Contex.Get | comit/fxsrv/contex.go:10-14 | finds exactly what is stored under the key |
| Connections.ConnectManage.GetConnect | comit/manage/connectmanage.go:19-25 | finds the user's connection exactly if there is one |
| RetrySpec.RetryBounds | comit/manage/ackmessage.go:38-50 | in every run a message goes out at most four times, at least six seconds apart; while queued its counter is the number of sends and its deadline is five seconds after the last |
| RetrySpec.RetriesIff | comit/manage/ackmessage.go:148-169 | at a tick of any run a queued message goes out again if and only if more than five seconds have passed since it last did, it can be reached, and it has gone out fewer than four times |
| RetrySpec.ExpiriesArePaid | comit/manage/ackmessage.go:148-169 | without new messages every expiry lowers the sum of open attempts |
| RetrySpec.DrainBound | comit/manage/ackmessage.go:148-169 | without new messages at most four expiries per queued message ever happen |
| RetrySpec.SpacedTicksCount | comit/manage/ackmessage.go:148-169 | along a run without new messages and with ticks more than five seconds apart, every message left has been sent once more per tick |
| RetrySpec.FourTicksEmpty | comit/manage/ackmessage.go:148-169 | so four such ticks empty the queue, whoever is reachable and whatever is acknowledged between |
| RetrySpec.KeptInOrder | comit/manage/ackmessage.go:148-169 | a tick writes every retried message exactly once, earliest deadline first |
| RetrySpec.TurnsAddUp | comit/manage/ackmessage.go:148-169 | a turn of the loop deals with a message not dealt with before, and turns add up to the tick on maps, whatever is lost besides |
| RetrySpec.LoopEnd | comit/manage/ackmessage.go:146-173 | whether the loop stops at a message not due or after as many turns as messages, it leaves the queue after the tick but for those lost |
| TickSpec.TurnsLose | comit/manage/ackmessage.go:146-169 | in the middle of any tick the queue is what dealing with the messages taken so far leaves, but for those stolen |
| TickSpec.TickLoses | comit/manage/ackmessage.go:146-173 | so after any tick the queue is that of the tick on maps but for those stolen, and nothing overdue is left |
| TickSpec.TheftIff | comit/manage/ackmessage.go:153-157 | a message is stolen if and only if one is given up at a turn when the index can hold another of its key: one sent again before, or the one it held at the start |
| TickSpec.TakesIff | comit/manage/ackmessage.go:153-157 | whether anything is stolen can be told from queue and index before the tick, if the due messages of one key have different deadlines |
| TickSpec.NoRivals | comit/manage/ackmessage.go:153-157 | for equal deadlines too: nothing is stolen if no due message to be given up has another of its key that is sent again and due no later, or indexed and due no earlier |
| TickSpec.NoneStolen | comit/manage/ackmessage.go:146-173 | if nothing is stolen the tick refines the tick on maps, does not read an empty heap, and takes exactly the due messages in order |
| TickSpec.TickIsRun | comit/manage/ackmessage.go:144-173 | every tick, thefts included, is a run of the map steps with the same writes: a tick followed by removals, so the bounds on all runs hold for it |
| TickSpec.TickRows | comit/manage/ackmessage.go:144-173 | what a tick makes of each single message, and which ones it writes |
| TickSpec.TwoStarve | comit/manage/ackmessage.go:146-157 | of two queued messages of one key, the first due and given up, the second indexed and not due, none is left and a turn remains |
| Thefts.HolderIs | comit/manage/ackmessage.go:146-169 | after any turns the index holds for a key the last message of it that was sent again, nothing if the last to change it was given up, and what it held before if none did |
| Thefts.StolenOnes | comit/manage/ackmessage.go:153-157 | a message is stolen exactly at a turn that gives up another while the index holds it and it is queued, whatever the deadlines |
| Thefts.HeardAreTaken | comit/manage/ackmessage.go:146-173 | exactly the due messages not stolen early have their turn |
| Thefts.StolenAreDoomed | comit/manage/ackmessage.go:146-173 | for due messages of one key with different deadlines: a tick steals exactly the messages foretold from queue and index before it |
| Thefts.RefinesIff | comit/manage/ackmessage.go:146-173 | so it is the tick on maps if and only if every message foretold is due and not to be sent again |
| Thefts.StarvedIff | comit/manage/ackmessage.go:146-149 | and it reads slot 0 of an empty heap if and only if one is stolen before its turn and every queued message is stolen, or due and not to be sent again |
| AckManage.AckMessageManage.Push | comit/manage/ackmessage.go:38-50 | stamps the message; queues and indexes it exactly if its receiver is connected; keeps heap, slots and contexts consistent |
| AckManage.AckMessageManage.Delete | comit/manage/ackmessage.go:61-76 | removes exactly the message the receiver's context holds under the id, and the entry; keeps everything consistent |
| AckManage.AckMessageManage.Pop | comit/manage/ackmessage.go:77-80 | the earliest message leaves the queue with index -1 and everything stays consistent |
| AckManage.AckMessageManage.Retry | comit/manage/ackmessage.go:152-169 | dropped without connection, after more than three sends, or when the write fails; otherwise written, with its type, body and body length, and queued with a new stamp; the receiver's context forgets or remembers accordingly |
| AckManage.AckMessageManage.RetryHead | comit/manage/ackmessage.go:149-169 | one turn takes a message of earliest deadline and changes queue and index as on values; it is stamped anew or leaves and nothing else changes exactly if it robs no other of its key |
| AckManage.AckMessageManage.Turn | comit/manage/ackmessage.go:149-169 | in the middle of a tick, one more turn extends the messages taken by one, for every consistent queue |
| AckManage.AckMessageManage.Tick | comit/manage/ackmessage.go:144-173 | for every consistent state: queue and index are those of the turns on values; the requests are those of the resent messages in order, with their types, bodies and body lengths; row by row, a message not stolen stays as it was if its deadline is not past, gets a deadline five seconds on and one more attempt if it is resent, and leaves otherwise; slot 0 of an empty heap is read exactly if the turns starve; if nothing is stolen the tick refines the step on maps; if the deadlines of one key differ, thefts, refinement and panic are as foretold |
| AckManage.RequestsCarry | comit/manage/ackmessage.go:160-164 | each request carries its message's type and body, flag 0 and, below 4 GiB, the body's length |
| AckManage.ResentAreRead | comit/manage/ackmessage.go:160-164 | a client that receives the requests of a tick reads back exactly the types and bodies of the messages resent |
| AckManage.AckMessageManage.OnPush | comit/manage/ackmessage.go:179-180 | the push arm of the event loop is the Push step of a run, and indexes the message |
| AckManage.AckMessageManage.OnDelete | comit/manage/ackmessage.go:177-178 | an ack is the Ack step of a run for the one message with that receiver and id, and for no other |
| AckManage.AckMessageManage.OnConnect | comit/manage/connectmanage.go:13-18 | a connection that comes keeps heap and contexts consistent and the queue as it is, and brings its own entries |
| AckManage.AckMessageManage.OnDisconnect | comit/manage/connectmanage.go:26-31 | a connection that goes keeps heap and contexts consistent and the queue as it is, and takes its entries along |
| AckManage.AckUndoesPush | comit/manage/ackmessage.go:38-76 | acknowledging a message just pushed gives the queue back exactly |
| AckManage.RetryInterrupted | comit/manage/ackmessage.go:42-46 | a connection lost between write and push takes the message off the queue and leaves everything else consistent, though the message now claims slot 0 |
| AckManage.NamesakesPanic | comit/manage/ackmessage.go:144-169 | two messages of one key pushed at seconds 0 and 20 into an empty queue, with ticks at 6, 12, 18 and 24: the last tick reads slot 0 of an empty heap |
| AckManage.NamesakesFromEmpty | comit/manage/ackmessage.go:144-169 | and such a state is reached from the empty manager by one connection |
| ManagerRuns.Arrive | comit/manage/ackmessage.go:142-182 | whatever arrives moves the queue by steps of a run, at most one of which puts messages on the wire, just those that go out; queue, index and connected users become those the arrival asks for, and a panic is a starving tick |
| ManagerRuns.TimeLoop | comit/manage/ackmessage.go:139-184 | over any arrivals, ticks with thefts and connections that come and go included, the queue is that of a run with every message pushed once, and the log of what goes out has the send times of that run; arrival by arrival, queue, index, users and log are traced from start to end, and the loop stops early only at a starving tick |
| ManagerRuns.Bounds | comit/manage/ackmessage.go:38-50 | so at any time every message has gone out at most four times, at least six seconds apart, and its counter and deadline are told by these times |
| ManagerRuns.FromTheStart | comit/manage/ackmessage.go:139-184 | bounds and trace hold of a new manager under any arrivals |
| ManagerRuns.Drain | comit/manage/ackmessage.go:148-169 | without pushes at most four expiries per queued message happen, and four ticks more than five seconds apart empty the queue |
| Frames.BigEndianRoundTrip | comit/fxsrv/request.go:18-20 | a word that fits n bytes is read back from its n bytes |
| Frames.FromBigEndianRoundTrip | comit/fxsrv/connect.go:65-77 | n bytes are the printing of the word they are read as |
| Frames.FromBigEndianConcat | comit/fxsrv/connect.go:65-77 | the word read from joined bytes is the first part's shifted by the length of the second, plus the second's: the highest byte comes first |
| Frames.GetBytes | comit/fxsrv/request.go:15-23 | writing the fields one after another prints the frame: two bytes of type, four of length, both highest byte first, the flag and the body |
| Frames.PrintLayout | comit/fxsrv/request.go:15-23 | byte by byte, what a printed frame looks like |
| Frames.FirstFrameLayout | comit/fxsrv/connect.go:63-78 | a frame is read from two bytes of type, four of length, one of flag, and as many of body as the length says |
| Frames.ParseIsExact | client/flutter_im/lib/net/networkmanage.dart:97-111 | the frames parsed, printed again, followed by the rest, are the input; the rest holds no complete frame |
| Frames.ParseInvertsPrint | client/flutter_im/lib/net/networkmanage.dart:93-130 | printed frames are parsed back exactly, whatever follows them |
| Frames.ParseResumes | client/flutter_im/lib/net/networkmanage.dart:95-108 | parsing the leftover together with new bytes continues the parse |
| Frames.ChunkInvariance | client/flutter_im/lib/net/networkmanage.dart:93-112 | the outcome does not depend on how the bytes are cut into chunks |
| Frames.StreamDelivered | client/flutter_im/lib/net/networkmanage.dart:93-130 | any chunking of a stream of sized frames delivers exactly those frames and keeps the unfinished one |
| NetWork.NetWorkManage.DecodeHandle | client/flutter_im/lib/net/networkmanage.dart:93-112 | the decoder loop routes the frames of leftover plus data, keeps the rest, and terminates; the frames routed, printed again, and the rest are the bytes it had, and no complete frame is kept back |
| NetWork.NetWorkManage.Send | client/flutter_im/lib/net/networkmanage.dart:121-130 | sending adds the printed frame, highest byte first, with header values cut to their width |
| Unpacking.UnpackAgreesOn | comit/fxsrv/connect.go:56-82 | one buffer with given stale bytes behind it is unpacked as it parses if and only if no frame is too long and the 5-byte test does not misfire on the leftover |
| Unpacking.CleanAgrees | comit/fxsrv/connect.go:56-82 | with short frames and no risky leftover, unpacking is parsing, whatever stale bytes lie behind the buffer |
| Unpacking.UnpackAgreesIff | comit/fxsrv/connect.go:56-82 | so the server's parser is right whatever lies behind the buffer if and only if its content is clean |
| Unpacking.MisfireOutcome | comit/fxsrv/connect.go:59-77 | what a misfire does: the frames before it are routed; then leftover and stale bytes are routed as one frame if they make one up, and sliced out of range otherwise |
| Unpacking.LongFramePanics | comit/fxsrv/connect.go:76-77 | a frame too long for a uint32 end is sliced out of range after those before it are routed |
| Unpacking.CleanReadsAgree | comit/fxsrv/connect.go:41-82 | over a connection none of whose reads misfires the server routes exactly the frames of the stream |
| Unpacking.ReadsWeigh | comit/fxsrv/connect.go:41-82 | what has been routed and kept stands for at least the bytes received, and for just these only if every read was right: a misfire is never made up for |
| Unpacking.ReadsAgreeIff | comit/fxsrv/connect.go:41-82 | so for given stale bytes a connection is served right if and only if no frame is too long and no read misfires |
| Unpacking.SafeCutsAreClean | comit/fxsrv/connect.go:59-69 | a cut of a printed stream is risky exactly 5 bytes into a frame or one or two bytes before its end |
| Unpacking.PartialFrame | comit/fxsrv/connect.go:59-69 | of one frame without spare capacity, 5 bytes or all but the last one or two panic, and any other part is kept |
| Unpacking.SafeReadsDeliver | comit/fxsrv/connect.go:41-82 | if no read ends at such a byte, exactly the frames sent are routed and nothing is left |
| Unpacking.UnsafeReadsFail | comit/fxsrv/connect.go:41-82 | if a read ends at such a byte in a buffer without spare capacity, what is routed is not what was sent |
| Unpacking.DeliversIff | comit/fxsrv/connect.go:41-82 | so the frames sent get through whatever lies behind the buffer if and only if no read ends at such a byte |
| Unpacking.UnpackStep | comit/fxsrv/connect.go:58-81 | one turn of the loop moves one frame from the buffer to the routed ones |
| Connections.Connect.UnpackAll | comit/fxsrv/connect.go:56-82 | the loop routes and keeps what the turn-by-turn specification says, panics included |
| Connections.Connect.Read | comit/fxsrv/connect.go:41-55 | a read appends its bytes and unpacks; read after read, what is routed and kept is that of the whole connection |
| OneTable.Conservation | comit/modle/onemessage.go:13-23 | over every run a row was accepted as often as it was removed at its receiver's request, plus once if it is stored |
| OneTable.NothingLost | comit/modle/onemessage.go:13-23 | an accepted row not claimed by its receiver since is stored unaltered |
| OneTable.GoneMeansClaimed | comit/modle/onemessage.go:17-23 | an accepted row that is gone was claimed by its receiver since |
| OneTable.AcceptedIsHeldOrRemoved | comit/modle/onemessage.go:13-23 | a row accepted at some time is stored now or was removed at its receiver's request |
| OneTable.UnclaimedIsPulled | comit/modle/onemessage.go:24-29 | an accepted, unclaimed message is in the answer to the next pull unless more wait than a page holds |
| GroupTables.StepKeepsSound | comit/modle/groupmessage.go:23-48 | each statement keeps pairs unique and with their message |
| GroupTables.ReachableSound | comit/modle/groupmessage.go:7-48 | in every reachable state no (rek, user) pair is stored twice and each has its message row |
| GroupTables.Conservation | comit/modle/groupmessage.go:28-48 | over every run a pair was fanned out as often as it was removed at its receiver's request, plus once if it is stored |
| GroupTables.NothingLost | comit/modle/groupmessage.go:28-48 | a pair fanned out and not claimed by its receiver is stored, and so is its message, unchanged |
| GroupTables.GoneMeansClaimed | comit/modle/groupmessage.go:42-48 | a pair that is gone was claimed by its receiver since it was fanned out |
| GroupTables.JoinIsComplete | comit/modle/groupmessage.go:56-65 | the join gives each of the receiver's pairs its very message and nothing else |
| GroupTables.JoinedInOrder | comit/modle/groupmessage.go:56-65 | pairs are joined in the order they were inserted in |
| Notifies.NoneForgotten | comit/handles/pullmessage.go:70-95 | under any interleaving every notification created is stored, or was handed to a write for its own user |
| Notifies.PullMayContinue | comit/handles/pullmessage.go:72-94 | whatever happened since the list was read, writing it and then deleting its ids stays within that protocol |
| Stores.Store.AddOnemessage | comit/modle/onemessage.go:13-16 | a taken primary key or a failing database refuses the row and changes nothing |
| Stores.Store.DeleteOnemessageMany | comit/modle/onemessage.go:17-23 | if the database works, exactly the rows go whose id is listed and whose receiver asks; the others are unaltered |
| Stores.Store.CreateGroupMessage | comit/modle/groupmessage.go:23-26 | as for one-to-one rows, by the message's primary key |
| Stores.Store.CreateGroupUserMessage | comit/modle/groupmessage.go:28-41 | the text built is executed as exactly the given pairs; no pairs is a failing statement |
| Stores.Store.DeleteGroupUserMessageMany | comit/modle/groupmessage.go:42-48 | if the database works, exactly the pairs go whose id is listed and whose receiver asks; the messages stay |
| Stores.Store.CreateNotifie | comit/modle/notifie.go:10-13 | a notification gets an id never used before |
| Stores.Store.DeleteNotifieList | comit/modle/notifie.go:20-23 | only the listed ids go |
| FanOut.Split | comit/handles/chathandle.go:142-164 | a member of the list that is not the sender is local if connected here, else listed for the server it is recorded on, as often as it is in the list; and has as many pairs to store |
| FanOut.BoundOnce | comit/handles/chathandle.go:145-158 | every occurrence of a member goes to its one destination and to no other |
| FanOut.PairedOnce | comit/handles/chathandle.go:160-163 | every occurrence of a member but the sender gets one pair |
| FanOut.FanOutIsPartition | comit/handles/chathandle.go:142-164 | for a member set, each member but the sender has exactly one pair and is in exactly one of local (if connected here), the list of the server it is recorded on, offline |
| FanOut.SomePair | comit/handles/chathandle.go:160-163 | there is something to insert exactly if the list has another member than the sender |
| FanOut.WhereBound | comit/handles/chathandle.go:145-158 | who is in which list: connected here first, then the server recorded, the sender nowhere |
| FanOut.NobodyBound | comit/handles/chathandle.go:153-157 | a server gets a list exactly if some member is recorded there |
| Handles.Server.Accept | comit/handles/chathandle.go:25-48 | accepted exactly if sender, friendship, database and primary key allow it; the success ack goes out exactly then |
| Handles.Server.OneMessageHandle | comit/handles/chathandle.go:17-86 | stores before it acknowledges; queues and writes if the receiver is here, forwards if it is on a known server, and only accepted messages |
| Handles.Server.AckMesageHandle | comit/handles/chathandle.go:204-223 | the ack reaches the retry manager and deletes exactly the acknowledging user's own copy of the given kind |
| Handles.Server.DeleteManyHandle | comit/handles/chathandle.go:225-248 | exactly the requesting user's own copies of all the listed ids go, and the reply tells the outcome |
| Handles.Server.GorupMessageHandle | comit/handles/chathandle.go:105-201 | success is acknowledged exactly when message and pairs are stored; then each connected member but the sender is queued for and written to once, and each other recorded on a server that can be called is in the one call of that server |
| Handles.ServedByName | comit/handles/chathandle.go:142-200 | the same said of each member by name, without the lists |
| Handles.Server.BeginGroup | comit/handles/chathandle.go:111-140 | the message is inserted exactly if sender, membership, database and primary key allow it; otherwise the own sender is told |
| Handles.Server.PairUp | comit/handles/chathandle.go:142-168 | the pairs of the fan-out are inserted exactly if there are any and the database works; otherwise the sender is told |
| Handles.FanOutIsStored | comit/handles/chathandle.go:128-170 | wherever the two inserts are in a log, a member but the sender that has not claimed its copy since has its pair, next to the message |
| Handles.Server.StorePairs | comit/handles/chathandle.go:160-168 | after the second insert every member but the sender has been given its pair |
| Handles.QueuedIsStoredOrRemoved | comit/manage/ackmessage.go:153-157 | a message queued for retries, one-to-one or group, is still stored for its receiver or was removed by it, so giving up its retries loses nothing |
| Handles.ForwardedIsStoredOrRemoved | comit/handles/chathandle.go:58-61 | so is a message passed on to another server, for every receiver named, whether the call arrives or not |
| Handles.Server.StaysHonest | comit/handles/chathandle.go:50-86 | what a server has queued or passed on stays backed under any statements of any server |
| Handles.Server.Transfer | comit/grpcserver/server.go:21-49 | any message passed on is written and queued exactly if its receiver is here; an accepted one leaves the server honest |
| Handles.Server.Grouptranfer | comit/grpcserver/server.go:50-76 | of any list of receivers those up to the first one not connected are served; a message stored for them leaves the server honest |
| Handles.PrefixEnds | comit/grpcserver/server.go:63-68 | what the loop has served is the longest connected prefix |
| Clusters.Answer | comit/grpcserver/server.go:21-76 | a call any server of the cluster recorded is answered by queueing for and writing to the members still connected, and leaves the server honest |
| Clusters.WorkStays | comit/handles/chathandle.go:128-168 | what a handler left between two statements is as it left it after any statements of others |
| Clusters.Begin | comit/handles/chathandle.go:17-141 | the first part of a handler stores its message exactly under the handler's conditions and tells the sender, leaves its server honest and the rest of it enabled |
| Clusters.GoOn | comit/handles/chathandle.go:50-200 | every later part does its work, queueing, writing, calling or storing the pairs, and leaves its server honest: the insert of the pairs finds its message open |
| Clusters.Serve | comit/handles/chathandle.go:17-248 | whatever a client or another server asks of one server, or a handler goes on with there, is done, and keeps the store valid, every server of the cluster honest, and every handler able to go on |
| Clusters.ClusterKeeps | comit/manage/ackmessage.go:153-157 | in a cluster every message queued or passed on by any server is stored for its receiver or was removed at its request |
| Clusters.Run | comit/handles/chathandle.go:17-248 | over every interleaving of handlers at their statements, calls arriving late, twice or never, every statement is enabled, and everything queued or passed on anywhere is stored for its receiver or was removed at its request |
| Handles.Server.FriendAgree | comit/grpcserver/server.go:98-122 | the asker is told now if connected, otherwise a notification is stored |
| Handles.Server.PullOneMessage | comit/handles/pullmessage.go:14-41 | answers with the user's stored messages, the first 1000 of them, and deletes nothing |
| Handles.Server.PullGroupMessage | comit/handles/pullmessage.go:42-68 | answers with the user's pairs, each once with its very message, all of them if they are fewer than 10000 |
| Handles.Server.PullNotifieSend | comit/handles/pullmessage.go:72-91 | hands the user's whole list, as the table has it, to the connection |
| Handles.Server.PullNotifieDelete | comit/handles/pullmessage.go:92-94 | deletes exactly what was handed over, whatever happened since |
| SqlRows.BuildInsert | comit/modle/groupmessage.go:30-38 | the loop builds head, rows, commas between rows and one final semicolon |
| SqlRows.RowToTheLetter | comit/modle/groupmessage.go:34-36 | a row to the letter, id before receiver |
| SqlRows.TwoRows | comit/modle/groupmessage.go:30-38 | two rows have a comma between them and one semicolon at the end |
| SqlRows.RowsReadBack | comit/modle/groupmessage.go:30-38 | a non-empty list of rows is read back from its text exactly; an empty one is no statement |
| SqlRows.InsertExecutes | logic/models/groupchat.go:167-175 | so executing the text inserts exactly the rows |
| Decimal.PrintRoundTrip | comit/modle/groupmessage.go:34-36 | a number is read back from its decimal digits |
| Decimal.ValueOfConcat | client/flutter_im/lib/src/pages/chat/onechat.dart:107 | joining digit strings shifts the first by the length of the second |
| MessageId.RekIsSum | client/flutter_im/lib/src/pages/chat/onechat.dart:107 | the id is user times 10^12 plus stamp, and exists exactly for users up to 9223371 |
| MessageId.RekIsInjective | client/flutter_im/lib/src/pages/chat/onechat.dart:107 | equal ids mean the same user in the same 10 ms |
| MessageId.RekOfAnyStamp | client/flutter_im/lib/src/pages/chat/onechat.dart:107 | for clocks of any length the id is the user's number shifted by the stamp's digits plus the stamp, if it fits |
| MessageId.SameRekIff | client/flutter_im/lib/src/pages/chat/onechat.dart:107 | two ids are the same number if and only if the shorter stamp is the tail of the longer, and what the longer has before it is the tail of the other user id |
| MessageId.SameLengthIsInjective | client/flutter_im/lib/src/pages/chat/onechat.dart:107 | stamps of one length never make two users collide |
| Membership.Relation.Check | comit/rediscache/usercache.go:49-68 | answers as the table would, on hit and on miss, and keeps every cached set equal to the table's |
| Membership.Find | comit/rediscache/groupcache.go:45-50 | the search finds exactly the members |
| Membership.MembersAfterDelete | logic/models/groupchat.go:177-186 | deleting members of one key takes exactly those and leaves other keys alone |
| Membership.DeletedRows | logic/models/groupchat.go:177-186 | exactly the rows that pair the key with a named member go |
| Membership.MembersOfConcat | logic/models/friend.go:23-36 | inserted rows add their members and nothing else |
| Membership.Relation.FriendAdd | logic/models/friend.go:15-47 | adds both rows or none, and keeps the cache coherent on every path |
| Membership.Relation.FriendDelete | logic/models/friend.go:48-53 | removes one direction only, and keeps the cache coherent |
| Membership.Relation.Invitation | logic/models/groupchat.go:159-176 | inserts exactly the invited members through the text it builds, and keeps the cache coherent |
| Membership.Relation.Removemembers | logic/models/groupchat.go:177-186 | deletes exactly the named members, and keeps the cache coherent |
| Membership.WriteAfterChecks | logic/models/friend.go:48-53 | with any checks between invalidation and write, the cache is right afterwards if and only if the write changes nothing for the key, there was nothing to cache for it, or no answered check asked for it |
| Membership.RefillRace | logic/models/friend.go:48-53 | the instance with one check and one new friend: a stale set stays behind |
| PercentDecoding.DecodesIffWellFormed | logic/controller/osshandle.go:297-339 | outside host names decoding succeeds exactly if every '%' is followed by two hex digits |
| PercentDecoding.DecodedLength | logic/controller/osshandle.go:345-345 | the result is shorter by two bytes per escape |
| PercentDecoding.UnescapeInvertsEscape | logic/controller/osshandle.go:291-434 | for every text and escaping mode, unescaping the escaped text gives the text back |
| PercentDecoding.DecodesIffSpells | logic/controller/osshandle.go:297-366 | outside host names an input decodes to a text if and only if it spells it, each byte bare or as one of its escapes in either case of digit |
| PercentDecoding.RefusedAtFirst | logic/controller/osshandle.go:297-304 | outside host names a refusal names the first broken escape, up to three bytes of it |
| PercentDecoding.ShouldEscapeIff | logic/controller/osshandle.go:372-434 | which bytes are escaped in which mode |
| PercentDecoding.HostHead | logic/controller/osshandle.go:305-336 | in a host only "%25" and bytes from 0x80 on may be escaped, and only host characters may stand bare |
| PercentDecoding.ZoneHead | logic/controller/osshandle.go:314-336 | in a zone an escape may stand only for a space, a "%" or a character the zone may hold bare |
| PercentDecoding.EscapedByteDecodes | logic/controller/osshandle.go:372-458 | an escaped byte decodes to itself and consumes exactly its escape |
| PercentDecoding.DecodedIsSpelled | logic/controller/osshandle.go:347-366 | the decoded bytes are those the index loop meets |
| PercentDecoding.CheckAt | logic/controller/osshandle.go:298-336 | the tests of the first pass find exactly the error of the head |
| PercentDecoding.Unescape | logic/controller/osshandle.go:291-368 | both passes together compute the decoding, for every mode, with its errors |
| PercentDecoding.Fill | logic/controller/osshandle.go:346-367 | the second pass fills the array exactly, every access in bounds |
| PercentDecoding.UnescapePath | logic/controller/osshandle.go:291-294 | always decodes a path segment: the result is a text exactly if the input spells it, with upper or lower case digits, and the error names the first broken escape |
| EventBuses.CallbackList.Remove | client/flutter_im/lib/uitls/eventbus.dart:30-30 | exactly the first occurrence goes, if there is one |
| EventBuses.WithoutKeepsPrefix | client/flutter_im/lib/uitls/eventbus.dart:39-42 | removing a callback leaves the callbacks before it in place |
| EventBuses.ReversedAt | client/flutter_im/lib/uitls/eventbus.dart:40-42 | the calls of a safe emit are the subscribers, each once, last subscribed first |
| EventBuses.SlotsStay | client/flutter_im/lib/uitls/eventbus.dart:39-42 | actions that drop no callback still to be called leave its slot alone |
| EventBuses.SparedAreCalled | client/flutter_im/lib/uitls/eventbus.dart:35-43 | if no callback drops one still to be called before the event is cleared, all are called once in reverse order, whoever is added |
| EventBuses.OneTurn | client/flutter_im/lib/uitls/eventbus.dart:39-42 | one that drops another still to be called moves the next callback in turn off its slot for good |
| EventBuses.CalledOnceIff | client/flutter_im/lib/uitls/eventbus.dart:35-43 | among scripts that subscribe none of them again, all subscribers are called once in reverse order if and only if none drops one still to be called before the event is cleared |
| EventBuses.CallsAreCounted | client/flutter_im/lib/uitls/eventbus.dart:39-42 | an emit makes one call per slot, fewer exactly if it ends in a range error |
| EventBuses.CalledOnceIffEarlierSpared | client/flutter_im/lib/uitls/eventbus.dart:35-43 | if nobody clears the event, this is so if and only if no callback unsubscribes one from a slot before its own |
| EventBuses.SelfRemovalIsSafe | client/flutter_im/lib/uitls/eventbus.dart:35-43 | if the subscribers differ and each removes at most itself, all present at the start are called once, in reverse order, without range error, though any are added or the list is dropped |
| EventBuses.RemovingEarlierBreaks | client/flutter_im/lib/uitls/eventbus.dart:39-42 | the instance with two subscribers, the later removing the earlier: it is called twice and the other never |
| EventBuses.RemovingBothFails | client/flutter_im/lib/uitls/eventbus.dart:39-42 | the instance in which a callback drops both: the next slot is missing and the emit ends in a range error |
| EventBuses.EventBus.Invoke | client/flutter_im/lib/uitls/eventbus.dart:41-41 | what a callback does changes the walked list as it does on values, and only while the bus holds it |
| EventBuses.EventBus.On | client/flutter_im/lib/uitls/eventbus.dart:17-21 | the subscriber is appended to its event's list only |
| EventBuses.EventBus.Off | client/flutter_im/lib/uitls/eventbus.dart:24-32 | one subscription of the callback goes from its event's list only |
| EventBuses.EventBus.Emit | client/flutter_im/lib/uitls/eventbus.dart:35-43 | for any behaviour of the callbacks, which may differ from turn to turn, the loop makes exactly the calls of the walk on values, range errors included |
| ComitService.ComitManages.NextTcpServer | logic/service/comitService.go:96-101 | a call on its own moves the counter on, wrapping at 2^32, and takes the server at its remainder by the list length |
| ComitService.ComitManages.DeleteTcpServer | logic/service/comitService.go:102-112 | the first match goes, the others keep their order |
| ComitService.RoundRobinIsFair | logic/service/comitService.go:96-101 | k rounds choose each position exactly k times |
| ComitService.CallsChain | logic/service/comitService.go:99-100 | consecutive calls choose the positions of one row of calls |
| ComitService.HitsClosedForm | logic/service/comitService.go:96-101 | how often any number of calls choose a position |
| ComitService.FairAcrossWrapIff | logic/service/comitService.go:99-100 | across the counter's wrap this holds exactly for list lengths that divide 2^32 |
| ComitService.OverlapIff | logic/service/comitService.go:96-101 | calls in any overlap choose the positions of a row of calls if and only if no call adds before the one ahead of it has read |

## Left out

- Sockets, dialling, service discovery, the ORM, the Redis client, logging, configuration, token checks and storage-service signatures: input/output and libraries; their outcomes are parameters.
- Protobuf encoding and decoding: messages are taken as decoded, and a queued body is the message it encodes.
- `Connect.Write`, `Close`, the write channel and the worker pool: a write's outcome is a parameter, and channel races are not modelled.
- Bodies that alias the read buffer, and pooled request objects: bodies are values.
- The channels in front of the retry manager: an ack may be processed before the push it answers, so nothing is claimed about acked messages never being resent.
- `MinHeap.Update` and `CleanConnect`: never called.
- The frame type of a retried forwarded group message: the source leaves it unset (comit/grpcserver/server.go:69-72), and no equality with the first send is claimed.
- `GetGroupUsers` on a cold cache: the fan-out is stated for the list actually fetched.
- `QuitGroup`, `DeleteGroup` and `GroupCreate`: the source's ownership transfer updates without a filter, and what it should keep is not decided there.
- The order in which a database lists rows: a parameter for one-to-one pulls, insertion order for group pulls.
- The status update of the friend request inside `FriendAdd`'s transaction: it touches another table.
- Callbacks that emit events themselves: the event bus is shown for callbacks that subscribe and unsubscribe.
- Dart's signed view of received bytes: a byte is its unsigned value on both sides.
- The guards of `Invitation` and `Removemembers`: the answer of their query is a parameter.
- EventBuses.CalledOnceIff: scripts that subscribe a present callback again are covered by `SparedAreCalled` only, since a callback taken off and added again can come to stand in its old slot.
- TickSpec.TakesIff: for due messages of one key with equal deadlines the order of turns is the heap's; `TheftIff` gives the condition in the order taken, `NoRivals` one that suffices for every order.
- Thefts.StolenAreDoomed: likewise for equal deadlines; `StolenOnes` says it in the order taken.
- ComitService.OverlapIff: for fewer halves of calls than servers and below the counter's wrap, since positions repeat beyond.
