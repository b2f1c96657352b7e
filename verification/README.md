# Verified model of the RPC layer, the timer and the watcher

A Dafny model of three parts of the system, with proofs about whole runs of
each. `dafny verify dfyconfig.toml` checks all of it.

**RPC wire layer.** `Wire` is the frame format: the methods cut a byte string
into frames the way `MakeReqBody` and `MakeRspBody` do, and `Parse` reads one
frame; `Decode` is the same on the buffer a frame was read into, copying what it
returns. `Reassembler` is `ParseResp` with its table of partial messages, and the
boxes (`RecvChan`) in which callers wait; slots and payloads are arrays on the
heap, and `memory` records what is stored in them. `Collector`, `Delivery` and
`Repetition` say what `ParseResp` does to honest traffic that the network loses,
repeats, reorders and interleaves: it is a coupon collector per event id. `Peers`
says what becomes of that when clients share one table. `Transport`, `Receivers`,
`Datagrams`, `Server` and `Serving` are the pooled buffers and the loops around it;
`StreamDelivery` goes from the bytes of a connection to the callers' boxes.
`Client` says what boxes with room without end would hold, `Channels` and `Copies`
how the real ones relate to that, which hold one value and block the read loop when
they are full; `Conservation` says that nothing is lost in them. `RoundTrip` composes both directions into laws for remote calls.
`Invoke` has the request numbers and the failover loop.

**Timer.** `Scheduler` is the two-tier timer as a state machine and its proof
against a timer with one set. `Ledger` counts runs and due times. `TimerData` is
the imperative timer, proved against the state machine. `CatchUp` is the loop at
the end of `checkTime`.

**Watcher.** `Registry` is the api registry, `Watcher` the state machine of
registry and node table, `Lookup`, `Pruning` and `Liveness` are about its runs, and
`WatchServer` is the imperative watcher, proved against the state machine.
`Campaign` is the election of a main watcher.

`Common` and `Runs` hold what is shared: a few constants, runs of a step function,
simulation between two of them, and invariants.

Every method is proved against a specification function; the lemmas are about
those functions. The functions that stand for source code directly are
`Wire.Parse` (`network/rpc/encode.go:150-191`), `Wire.Prefix`
(`network/rpc/encode.go:114-123`), `Reassembler.Feed`
(`network/rpc/conns.go:168-232`), `Scheduler.Step` (`timer/cache.go:43-108`),
`Campaign.Step` (`network/watch/elect.go:35-76`), `Registry.PutApi` and
`Registry.PutMsg` (`network/watch/fmsg.go:34-95`) and `Watcher.Step`
(`network/watch/api.go:21-137`, `network/watch/node.go:32-214`).

## Assumptions

- Each handler, `ParseResp` call, tick, `run`, `checkSave` and watcher call is
  one atomic step.
- The geometry is symbolic: a 12-byte header, a body of 1 to 65535 bytes, a
  2-byte trailer. `TCP_SPLIT` and `UDP_SPLIT` are the two the source uses.
- Honest traffic has one message per event id, ids in 1 to 2^24 - 1, function ids
  in 1 to 65535, and at most 65535 frames a message (`Collector.WellFormed`). The
  table of partial messages may hold any other ids. At the start of a client run the
  boxes of the ids to come are empty, if they are there at all (`Channels.Ready`). `Peers` drops the first of
  these for the table that all UDP clients share.
- A Go channel is the sequence of values sent to it and not yet received, of length
  at most one. Clock readings, the results of network writes, and what user
  functions return are parameters.
- The timer counts in milliseconds. Ticks are at most one period apart, the clock
  does not run backwards, and a `checkSave` is done before the second tick after
  the one that launched it (`Scheduler.Timely`); `OneTickOfSlack` shows that the
  last condition cannot be relaxed.
- The 32-bit id counter of the registry does not overflow (`Watcher.Fits`).
- Watcher clock readings do not decrease where sweeps are bounded in time
  (`Liveness.SweptOften`).

## Where the code does not do what it seems to promise

- An error reply never reaches its caller. `parse` returns its id, but `ParseResp`
  drops it, so the error channel of a waiting caller is never written
  (`Reassembler.ErrorsHaveNoId`), and the caller's box stays empty
  (`RoundTrip.CallerGetsItsReply`).
- A caller registers its box after the request is written. A reply whose last
  frame arrives before that is lost (`RoundTrip.CallerGetsItsReply`,
  `Channels.EarlyReplyIsLost`).
- A reply that arrives twice can stop a connection for all its callers. The box holds
  one value, and the second send blocks the read loop until the caller receives. If
  the caller leaves instead, the loop never reads again. `Copies.BlocksExactly` and
  `Copies.GetsThroughExactly` say when a send blocks, `Copies.RepeatedReplyBlocks` and
  `Channels.RepeatStarvesOthers` show it. Without repeats it cannot happen
  (`Channels.NeverBlocks`).
- Event id 0 means "nothing complete", but every 65535th request number is 0
  (`Invoke.UnanswerableNumber`), and no server answers such a request
  (`Server.NumberZeroUnanswered`).
- The counter jumps past the reserved numbers, but the remainder by 65535 falls back
  among them: when the counter is at 65536, an external call gets number 1, which is
  `PingNetwork` (`Invoke.ReservedNumber`).
- All UDP clients of a node share one table, and they number their requests alike.
  Requests of one number, function and frame count blend into each other: what is
  delivered can take every slice from another client (`Peers.OnlyBlends`,
  `Peers.EveryBlend`) and be nobody's request (`Peers.NobodysRequest`).
  `Peers.NothingMixesExactly` says when it cannot.
- A message is forgotten once delivered, so a second full set of its frames
  delivers it again (`Repetition.DeliveredAtLeast`, `Repetition.DeliveredTwice`).
- The header fields are cut to their width without a check. A payload reads back
  exactly when everything fits (`Wire.CodecRoundTrip`); id 2^24 reads back as 0
  (`Wire.WideNumberMisread`).
- `ParseResp` panics on a frame that claims more body than it has, and on sort
  number 0 for a message already begun (`Reassembler.PanicsExactly`,
  `Reassembler.OverlongPanics`, `Reassembler.SliceZeroPanics`).
- "The earliest timestamp wins" settles nothing between equal timestamps: the last
  to arrive wins, and watchers disagree (`Campaign.WatchersAgreeExactly`,
  `Campaign.TieDisagrees`).
- `timer/README.md:13` offers stamps like 04:05, but the integer division in
  `checkTime` drops the offset, so the task is due on the full minute, hour or day
  (`CatchUp.DueDropsOffset`, `CatchUp.FourOhFive`).

## Model

| member | source | states |
|---|---|---|
| Wire.MakeReqBody | network/rpc/encode.go:63-112 | the appends and patches of all three branches build exactly the specified frames of the payload, including the empty, one-frame and exact-multiple cases |
| Wire.FullSlices | network/rpc/encode.go:87-97 | after the loop frame k carries slice k+1 of the payload, sort number k+1 and the frame count |
| Wire.FinalSlice | network/rpc/encode.go:101-109 | the last frame carries the rest of the payload, padded, and its length in place of a sort number |
| Wire.MakeRspBody | network/rpc/encode.go:125-148 | an error becomes one failure frame cut to the body size, function id 0 one not-found frame, anything else the frames of a request |
| Wire.SealFields | network/rpc/encode.go:114-123 | a header reads back each of its fields when that field fits its width, and the frame passes the delimiter check |
| Wire.FramesShape | network/rpc/encode.go:79-111 | there are max(1, ceil(len/size)) frames, all as long as the geometry says, and their slices join to the payload |
| Wire.CodecRoundTrip | network/rpc/encode.go:150-191 | frame i reads back as slice i with number, function, count and sort, if and only if number, function id and frame count fit the header |
| Wire.FrameLayout | network/rpc/encode.go:63-112 | every byte of every frame, in numbers: where id, kind, function, count, sort or length, slice, padding and marks stand, and which kind each frame is of |
| Wire.FailureLayout | network/rpc/encode.go:126-136 | the same for an error reply |
| Wire.RejectedExactly | network/rpc/encode.go:151-156 | `parse` turns a buffer away if and only if it has another length or lacks one of the four marks |
| Wire.KindsReadAlike | network/rpc/encode.go:162-189 | a frame of kind 14, 11, 15, 16 or 17 reads as the same frame of kind 4, 0, 1, 2 or 3 |
| Wire.ShippedGeometries | network/rpc/tcp.go:28-32 | the sizes of the TCP and the UDP geometry |
| Wire.FailureRoundTrip | network/rpc/encode.go:170-174 | an error reply reads back with its id, function and message cut to one frame |
| Wire.OutOfRangeExactly | network/rpc/encode.go:162-189 | `parse` slices beyond the frame if and only if a well-delimited frame of one of five kinds claims a body longer than what follows the header |
| Wire.WideNumberMisread | network/rpc/encode.go:66-67 | the first id that does not fit comes back as 0, for every payload and function |
| Wire.NotFoundIsUnread | network/rpc/encode.go:137-144 | the not-found frame, were it written, would read back as a body of no slices, without its text |
| Server.NoNotFoundRows | network/rpc/encode.go:48-60 | whatever a call returns, no frame of the answer has that kind |
| Decode.ParseBuffer | network/rpc/encode.go:150-191 | on a buffer, the decoded frame means what `Parse` says of its bytes, and its data lies in newly allocated memory |
| Reassembler.NodeConn.ParseResp | network/rpc/conns.go:168-232 | on any buffer and any table, the table after the call and the result are those of the specified transition, in memory that is new or was stored before, and everything stored still holds its bytes |
| Reassembler.NodeConn.ParseKnown | network/rpc/conns.go:180-210 | the branch for an id that has an entry: mismatch, out of range, repeated slice, stored slice, completion |
| Reassembler.OnlyOwnEntry | network/rpc/conns.go:168-232 | a frame leaves the partial messages of all other numbers alone |
| Reassembler.MismatchForgets | network/rpc/conns.go:181-186 | a slice of another function or count is refused, and its number has no partial message any more |
| Reassembler.GoesExactly | network/rpc/conns.go:180-208 | a partial message goes away if and only if such a slice comes or it is returned as a whole |
| Reassembler.FirstComeStays | network/rpc/conns.go:193-195 | a slice for a slot that is filled is ignored, whatever it holds |
| Reassembler.WholePassesBy | network/rpc/conns.go:170-174 | one-frame messages and errors pass by a partial message of their number |
| Reassembler.MalformedIgnored | network/rpc/conns.go:170-176 | frames of unknown kinds, of no slices, or with a sort number beyond the count change and return nothing |
| Reassembler.Join | network/rpc/conns.go:198-204 | the completion loop joins all slots in order, or gives nothing if a slot is empty |
| Reassembler.NodeConn.Deliver | network/rpc/conns.go:257-269 | a result with an id goes to the box of that id, the error to its error channel or else the bytes to its body channel, and to no other; if that channel is full, nothing is stored and the loop blocks with the result in hand |
| Reassembler.NodeConn.Take | network/rpc/invoke.go:327-336 | a receive takes the head of one channel of one box, and if the loop blocks on that channel, its send goes through and it runs again |
| Reassembler.PanicsExactly | network/rpc/conns.go:168-195 | on any bytes and any table, a call panics if and only if the frame claims more body than it has, or is a middle slice numbered 0 of a message known with the same function and count |
| Reassembler.OverlongPanics | network/rpc/encode.go:165-168 | a concrete frame that panics on every table |
| Reassembler.SliceZeroPanics | network/rpc/conns.go:193-219 | slice 0 of a message is refused when it comes first and panics when it comes second |
| Collector.HonestParse | network/rpc/encode.go:150-191 | every frame of honest traffic reads back as the slice or error its sender meant |
| Collector.RefineStep | network/rpc/conns.go:168-232 | one call on an honest frame is one coupon-collector step: same result, matching table, other ids untouched |
| Collector.RefineRun | network/rpc/conns.go:168-232 | so is every run, under any loss, repetition, reordering and interleaving |
| Delivery.Safety | network/rpc/conns.go:176-229 | in any such run each call returns nothing or the sent message whose frame arrived; each partial entry holds the right slice in each filled slot, counts them, and is neither empty nor full |
| Delivery.DeliveredOnLastArrival | network/rpc/conns.go:197-208 | without repeats, a call delivers its message if and only if all its frames have arrived by then |
| Delivery.ExactlyOnce | network/rpc/conns.go:168-232 | if each frame of each message arrives once, each message is delivered with its exact bytes on its last frame and on no other, and the table ends as it began |
| Repetition.DeliveredAtLeast | network/rpc/conns.go:197-228 | with repeats, a message is delivered at least k times if and only if the run can be cut into k stretches that each hold all its frames |
| Transport.BufferPool.Get | network/rpc/tcp.go:20-22 | the buffer is all zero and no longer free |
| Transport.BufferPool.Put | network/rpc/tcp.go:23-26 | the pool gains exactly this buffer, and all free buffers are zero |
| Transport.FillFrame | network/rpc/tcp.go:103-119 | for every way the network chunks the stream the loop ends with the next frame's bytes in the buffer and the rest unread, or with the stream at its end |
| Transport.DeframeWritten | network/rpc/conns.go:240-255 | deframing the concatenation of frames gives back those frames, and drops an incomplete tail |
| Receivers.ReadRespTCP | network/rpc/conns.go:235-272 | for every chunking, the loop handles exactly the frames of the stream in order, until its end, the first panic, or the first send to a full box, and its final state is that of the frames handled; returned buffers are zero, no free buffer is memory of a slot or payload, and what was stored or delivered keeps its bytes |
| Datagrams.ReadRespUDP | network/rpc/conns.go:275-305 | the same for exactly the datagrams that fill a frame |
| Datagrams.DatagramsDeliver | network/rpc/conns.go:275-305 | for any datagrams that carry reply frames, some lost, none repeated, in any order among short ones, and boxes that are empty: the loop neither panics nor blocks, each waiting box holds its own reply if all its frames came and else nothing, complete replies leave no partial message, other ids are untouched |
| Datagrams.RepeatedDatagrams | network/rpc/conns.go:275-305 | with repeats the loop blocks if and only if some box would get a second value, and else reads on to the end; it never panics, and wherever it ends, boxes hold copies of their own replies only |
| StreamDelivery.StreamDelivers | network/rpc/conns.go:235-272 | the same for a byte stream that breaks off anywhere, even inside a frame |
| Server.ParseRspByte | network/rpc/encode.go:48-60 | a completed request is answered with the frames of the handler's outcome under its own ids; anything else with nothing |
| Server.ReadFromUDP | network/rpc/udp.go:84-85 | a datagram in a zeroed buffer, cut or padded with zeros, and its length |
| Server.ShortDatagramRejected | network/rpc/encode.go:150-156 | a datagram shorter than a frame is rejected, in a zeroed buffer, though no one checks its length |
| Server.ServeDatagram | network/rpc/udp.go:83-99 | a short datagram has no effect, any other acts as the frame it begins with; the pool stays all zero and apart from all stored slices |
| Serving.ServeStream | network/rpc/tcp.go:103-133 | for every chunking of the request stream, the rows written are the answers to its frames in order, up to the end or the first panic; stored slices keep their bytes |
| Serving.StreamIsWritten | network/rpc/tcp.go:103-133 | for request frames lost, repeated and reordered at will, in a stream that breaks off anywhere, nothing panics and those rows are the ones the RPC laws speak about |
| Server.NumberZeroUnanswered | network/rpc/encode.go:48-51 | no frame of a request numbered 0 is ever answered, on any table |
| Client.ReceivedLast | network/rpc/conns.go:257-269 | callers coming and going do not change what the frames deliver |
| Channels.AgreesUntilBlocked | network/rpc/conns.go:257-269 | over any run, boxes of one value hold what boxes with room without end would, until one of these would hold two; then, and only then, the loop blocks |
| Channels.NeverBlocks | network/rpc/conns.go:257-269 | without repeated frames no send ever meets a full box, even if no caller reads |
| Channels.CallerBox | network/rpc/conns.go:257-269 | at any moment of such a run, a box opened and not touched since holds its own reply's bytes, once, if that was completed since it was opened, and else nothing |
| Channels.EarlyReplyIsLost | network/rpc/invoke.go:297-297 | all frames of a reply, then its caller begins to wait: its box stays empty |
| Channels.BoxesHoldOnlyOwn | network/rpc/conns.go:257-269 | with loss, repeats and reordering, boxes opened, read and closed at will, and the loop blocking or not, every box holds copies of its own reply only, and no error |
| Channels.NeverPanics | network/rpc/conns.go:168-232 | in such a run no frame panics |
| Channels.StuckServesNobody | network/rpc/conns.go:266-266 | a loop that blocks on a box that is gone reads nothing more, and no box of the connection is ever filled again |
| Channels.RepeatStarvesOthers | network/rpc/conns.go:266-266 | two callers wait, the first reply comes twice, its caller gives up: the second reply arrives and is never read |
| Conservation.NothingLostOrMadeUp | network/rpc/conns.go:257-269 | over any run of any frames, blocked or not, while a box is open: the values received from it, then the value in it, then the value a blocked loop has in hand for it are the replies of its number that were read, in order |
| Conservation.BlockedMeansFull | network/rpc/conns.go:257-269 | in every state of a run the loop waits to send only while the channel it sends to is full |
| Conservation.StuckExactly | network/rpc/invoke.go:325-325 | the loop blocks for good if and only if some caller replaces or deletes the box it waits to send to |
| Conservation.TakeFrees | network/rpc/invoke.go:330-330 | receiving from that box lets the value in and makes the loop ready again |
| Conservation.TakeServesOthers | network/rpc/invoke.go:330-330 | a reply comes twice, its caller receives, and another caller's reply then reaches its own box |
| Conservation.NumberZeroHearsNothing | network/rpc/conns.go:258-258 | the box of number 0 stays empty whatever arrives |
| Copies.BlocksExactly | network/rpc/conns.go:257-269 | at any moment of any run in which no send has blocked yet, the next frame blocks the loop on a box if and only if it delivers that box's reply and makes two of the values left in the box when its caller last touched it and the deliveries since |
| Copies.GetsThroughExactly | network/rpc/conns.go:235-272 | while nobody reads the boxes, a loop gets through a run of frames, lost and repeated at will, if and only if for no open box the frames of its reply come in two full sets one after the other, or in one if the box is full already |
| Copies.RepeatedReplyBlocks | network/rpc/conns.go:266-266 | the frames of any one reply, twice over, block the loop |
| Channels.BeginWait | network/rpc/invoke.go:324-324 | the box that `NewChan` makes is the Open event of the client runs |
| Channels.EndWait | network/rpc/invoke.go:325-337 | a wait ends with the first thing in its box or, if the context is done, perhaps with nothing; what is returned is received, which lets a blocked send through, and the box is gone, which leaves a send that still blocks on it blocked for good |
| Conservation.WaitOverIsEvents | network/rpc/invoke.go:325-337 | so the end of a wait is one receive, or none, followed by the deletion of the box, as events of the client runs |
| RoundTrip.ServerAnswersAll | network/rpc/encode.go:48-60 | however request frames interleave, and whichever are lost or still to come, the server writes every frame of the reply to every complete request exactly once, and nothing else |
| RoundTrip.FrameInjective | network/rpc/encode.go:63-112 | two frames of one traffic are equal only if they are the same slice of the same message |
| RoundTrip.CallerGetsItsReply | network/rpc/invoke.go:323-338 | at any moment of any run without repeats, with loss in both directions and any other callers coming and going, no send has blocked, and an open box not read yet holds exactly the handler's output for its own request if the handler succeeded and the reply was completed since the box was opened, and else nothing |
| RoundTrip.CallReturns | network/rpc/invoke.go:327-337 | so a call that is not cancelled returns the handler's output for its own request |
| RoundTrip.NothingButItsReply | network/rpc/conns.go:257-269 | on any network, repeats in both directions included, a box holds copies of the handler's output for its own request only |
| RoundTrip.ServerRunsAtLeast | network/rpc/encode.go:48-60 | a request whose frames repeat is run at least k times if and only if they come in k full sets, and each run writes the whole reply |
| Peers.OnlyBlends | network/rpc/udp.go:75-99 | in the table all clients share, under loss, repeats and reordering: no call panics, and what comes out under an id is a blend, each slice the matching slice of some client's request of that number, function and frame count |
| Peers.EveryBlend | network/rpc/udp.go:75-99 | every blend is delivered by some frames the clients send |
| Peers.NothingMixesExactly | network/rpc/udp.go:75-99 | every blend under a number is the request of some client if and only if putting a slice of one client's request into another of the same shape always gives the request of some client |
| Peers.NobodysRequest | network/rpc/udp.go:75-99 | two clients, one sending zeros and one ones, of two frames each: the server can be handed a payload neither sent |
| Peers.StartsOver | network/rpc/conns.go:181-186 | after a misfit slice, all frames of one client's request of that number, in any order, deliver exactly that request and leave no partial message, whatever was pending before |
| Peers.MisfitForgets | network/rpc/conns.go:181-186 | the misfit slice itself is refused and takes the partial message away |
| Peers.OneFramePassesBy | network/rpc/conns.go:173-174 | a client's one-frame request is delivered at once and leaves another's partial message alone |
| Peers.FirstClientStays | network/rpc/conns.go:193-195 | of two clients' slices for one place, the first is kept |
| Invoke.Numbering.Serial | network/rpc/invoke.go:266-277 | a reserved function id is its own number; else the 32-bit counter advances, jumping past the reserved range, and the number is its remainder by 65535 |
| Invoke.NumbersRepeatEvery65535 | network/rpc/invoke.go:266-277 | between wraps two calls get the same number if and only if they are a multiple of 65535 calls apart, and every number fits the three-byte field |
| Invoke.WindowDistinct | network/rpc/invoke.go:266-277 | any window of up to 65535 consecutive calls has distinct numbers, the jump included |
| Invoke.UnanswerableNumber | network/rpc/invoke.go:275-275 | a call gets the unusable number 0 if and only if the counter lands on a multiple of 65535 |
| Invoke.ReservedNumber | network/rpc/invoke.go:270-275 | an external call gets a reserved number if and only if the counter lands less than 100 above a multiple of 65535, past the first |
| Invoke.WriteRows | network/rpc/invoke.go:292-296 | the rows taken are those before the first failed write |
| Invoke.TryConns | network/rpc/invoke.go:282-318 | the first eligible connection that takes everything is chosen, those before it got what they took, those after it nothing |
| Invoke.ChosenExactly | network/rpc/invoke.go:283-318 | a connection is chosen if and only if it is the first that is another node's, not marked wrong, and takes all its 1430-byte or 520-byte slices, or whose post succeeds |
| Invoke.SentExactly | network/rpc/invoke.go:283-318 | each connection up to the chosen one got its frames in order up to the first refused, those after it nothing |
| Invoke.RowSizes | network/rpc/invoke.go:288-303 | every row sent to a TCP connection has 1444 bytes, every row to a UDP connection 534 |
| Invoke.PassedOver | network/rpc/invoke.go:284-285 | the node itself and connections marked wrong get nothing and are never chosen |
| Invoke.ConnsCall | network/rpc/invoke.go:279-321 | the request goes out that way under the number `serial` gives it |
| Invoke.PrefixCompletes | network/rpc/conns.go:197-208 | the first n frames of a request complete it at a node if and only if they are all of them |
| Invoke.OneNodeCompletes | network/rpc/invoke.go:279-321 | whatever writes fail, the request becomes complete at the chosen node and at no other, TCP nodes reading the TCP geometry and UDP nodes the other |
| Scheduler.PlacedStep | timer/cache.go:43-108 | every step keeps each task in one place only, under an id handed out before |
| Scheduler.MarginStep | timer/cache.go:44-56 | every timely step keeps the far set more than the horizon beyond its last check, and that check less than a horizon before the next tick |
| Scheduler.MergedStep | timer/cache.go:43-108 | one step of the two-tier timer is one step of the timer with a single set, with the same launches |
| Scheduler.TwoTiersAreOne | timer/cache.go:29-108 | over every timely run both timers launch the same tasks; each tick launches exactly the due tasks of both tiers |
| Scheduler.LaunchedAtFirstDueTick | timer/cache.go:49-60 | an armed task, near or far, is launched by the first tick at or after its due time and by none before |
| Scheduler.OneTickOfSlack | timer/cache.go:44-47 | for every period there is a run in which a `checkSave` one tick later than allowed makes a tick miss a due task |
| Ledger.BalancedStep | timer/cache.go:67-108 | every step keeps each account: runs plus remaining runs is the total, due time is first due plus one interval per run |
| Ledger.RunsAreConserved | timer/cache.go:67-84 | in every reachable state a task is in exactly one place or done; done means it ran exactly as often as asked; forever means never done |
| Ledger.NoDrift | timer/cache.go:80-83 | in every reachable state the due time is the first due time plus runs times interval, however late things were |
| Ledger.UncountedFinish | timer/cache.go:80-83 | a boolean task whose function returned true waits in one set, due one interval later; one whose function returned false is gone; others are untouched |
| Ledger.UncountedEndsExactly | timer/cache.go:67-84 | over every run, a boolean task is gone if and only if its function returned false at the end of a run |
| TimerData.TimerFunc.Rearm | timer/cache.go:67-82 | whether a task goes on after a run, and with what count and due time |
| TimerData.MoveObjects | timer/cache.go:97-107 | the loop moves exactly the tasks due by the limit and leaves every object unchanged |
| TimerData.TimerData.PutTask | timer/cache.go:86-92 | a task within the horizon goes near, any other far |
| TimerData.TimerData.OnTick | timer/cache.go:43-60 | one tick is one tick step of the state machine: due tasks in flight, every fourth launches a promotion |
| TimerData.TimerData.CheckSave | timer/cache.go:95-108 | one promotion step of the state machine |
| TimerData.TimerData.Run | timer/cache.go:67-84 | one finish step of the state machine |
| TimerData.TimerData.AddDuration | timer/timer.go:59-100 | zero runs add nothing, a negative count means forever, the first due time is one duration after the call, and what is added is admissible to the ledger |
| TimerData.TimerData.AddDurationBoolean | timer/timer.go:102-125 | the boolean kinds are added without a run count, due one duration after the call |
| TimerData.TimerData.AddTimerRun | timer/timer.go:15-54 | the immediate run counts: runs made now plus runs scheduled is the number asked for |
| CatchUp.NextDue | timer/timer.go:182-187 | the loop ends with the least value above now among the base plus multiples of the interval, which is the closed form |
| CatchUp.ClosedIsFirst | timer/timer.go:182-187 | the closed form is that least value |
| CatchUp.DueOnBoundary | timer/timer.go:158-187 | the due time is a multiple of the minute, hour or day |
| CatchUp.DueDropsOffset | timer/timer.go:158-187 | it is the next occurrence of the instant the stamp names if and only if that lies on a boundary of the unit |
| CatchUp.FourOhFive | timer/timer.go:164-167 | the stamp 04:05 is due at 01:00:00 where 00:04:05 comes first |
| Campaign.WatchElect.Elect | network/watch/elect.go:35-61 | an open campaign stops it; else it adopts its own campaign of ten seconds and names the watchers that are up |
| Campaign.UpNodesInOrder | network/watch/elect.go:47-50 | exactly the watchers that are up are named, in order |
| Campaign.TenSeconds | network/watch/elect.go:36-42 | one's own campaign makes a wish to stand be ignored for 9999 ms and heeded after 10000 |
| Campaign.WatchElect.ElectNotify | network/watch/elect.go:64-76 | refused if and only if an earlier campaign is running, and else adopted whole |
| Campaign.BeginNeverGrows | network/watch/elect.go:35-76 | over any stretch of a run in which some campaign is always running, the adopted timestamp never grows |
| Campaign.EarliestWins | network/watch/elect.go:35-76 | within a window a watcher ends with the least timestamp it met, whatever the order and repeats; of equal ones the last |
| Campaign.WatchersAgreeExactly | network/watch/elect.go:64-76 | all watchers that meet the same campaigns agree if and only if one campaign alone has the least timestamp |
| Campaign.TieDisagrees | network/watch/elect.go:64-76 | any two watchers that stand in one millisecond make such a tie, and those who hear them in different orders disagree |
| Registry.SplitsApiName | network/comm/recv.go:56-64 | "service.function" and "node.service.function" both split into service and function |
| Registry.OtherNamesSplitToNothing | network/comm/recv.go:56-64 | a name with neither one dot nor two has no service and no function |
| Registry.NewApiFiled | network/watch/fmsg.go:82-95 | every field of what is filed for a new name, in both views |
| Registry.NewMsgFiled | network/watch/fmsg.go:51-62 | the same for `PutMsg` |
| Registry.PutApiKeeps | network/watch/fmsg.go:65-95 | keeps the two-index bijection; a known name keeps its id, a new one gets an unused id, the node is listed; empty input changes nothing |
| Registry.PutMsgKeeps | network/watch/fmsg.go:34-63 | the same for `PutMsg` |
| Registry.PruneKeeps | network/watch/api.go:126-135 | dropping dead providers keeps the registry consistent and every id and name |
| Watcher.HoldsStep | network/watch/api.go:21-137 | every handler and sweep keeps the registry consistent, lists only nodes that registered, and lists all that registered and were not dropped since |
| Watcher.RegistryConsistent | network/watch/fmsg.go:97-109 | in every reachable state lookups by id and by name agree, and ids and names correspond one to one |
| Watcher.IdsAreForever | network/watch/fmsg.go:34-95 | over any continuation a name keeps its id and an id its name, and new ids are larger than all before |
| Lookup.LookupAnswers | network/watch/api.go:118-137 | in every reachable state a nonzero id finds the api filed under it, whatever the name, and without an id the name does; the answer lists, in provider order, each once, live nodes that registered it, with none missing that was not dropped since; afterwards the entry lists just these |
| Lookup.RegisteredIsFound | network/watch/api.go:118-137 | a node that registered an api and was not dropped since is listed for everyone who asks by name, by id, or by both |
| Lookup.RegistrationAnswers | network/watch/api.go:30-36 | in every reachable state a registration answers with its apis in order, unchanged but for the id that is filed under each name |
| Lookup.IdsInOrder | network/watch/api.go:30-36 | new names get increasing ids in the order of the request |
| Lookup.RegistrationAppends | network/watch/fmsg.go:71-78 | providers keep their places, new ones come last |
| Lookup.RefusedExactly | network/watch/api.go:24-26 | a registration is refused if and only if it has no uuid |
| Lookup.HeartbeatAnswers | network/watch/api.go:78-84 | a heartbeat is accepted if and only if the node is in the table |
| Lookup.RecordIsRegistration | network/watch/node.go:143-157 | in every reachable state a node's record is the one it registered with when it last entered the table |
| Pruning.PruningIsInvisible | network/watch/api.go:126-135 | after a lookup pruned a list, every later call answers as if it had not, until a pruned node registers again |
| Liveness.StaysExactly | network/watch/node.go:204-214 | a node stays in the table if and only if every sweep comes within 4000 ms of its last heartbeat or accepted registration |
| Liveness.TableIsFresh | network/watch/watch.go:86-88 | with sweeps at most 5000 ms apart, every node in the table sent a heartbeat, or registered from its host, in the last 9000 ms |
| WatchServer.FuncData.Provide | network/watch/fmsg.go:71-78 | the node is appended to the provider list unless it is there |
| WatchServer.FuncMap.PutApi | network/watch/fmsg.go:65-95 | the shared entry objects change in both indexes as the specification says, and the api comes back with its id |
| WatchServer.FuncMap.PutMsg | network/watch/fmsg.go:34-63 | the same for `PutMsg` |
| WatchServer.NodeMap.UpHeartbeat | network/watch/node.go:32-41 | a known node is stamped, marked up and keeps the reported status, an unknown one is reported |
| WatchServer.NodeMap.PutNodeDetail | network/watch/node.go:143-157 | a new node is entered, a known one refreshed only from the same host |
| WatchServer.NodeMap.ClearNodeExprie | network/watch/node.go:204-214 | exactly the nodes that are down or older than 4000 ms are dropped |
| WatchServer.WatchApi.Registered | network/watch/api.go:21-64 | all apis entered in order and reported with their ids, then the node refreshed; no uuid, no effect |
| WatchServer.WatchApi.Heartbeats | network/watch/api.go:78-84 | one heartbeat step of the state machine |
| WatchServer.WatchApi.ListAndPrune | network/watch/api.go:126-135 | the loop lists the records of the live providers in order and leaves exactly those in the entry |
| WatchServer.WatchApi.GetApiConn | network/watch/api.go:118-137 | one lookup step of the state machine |

## Left out

- Sockets, dialling, ping tests, HTTP calls and listeners: input and output. A write is an outcome given in advance, a read any chunk of the stream.
- Reflection dispatch and protobuf/JSON marshalling: the handler is any function from function id and bytes to an outcome, so it has no state.
- Go routines inside one handler: the per-frame goroutines of `tcpAccept` and `UdpListen` look entries up and store them without one lock around both; the model takes each `ParseResp` call as one step.
- Serving.ServeStream: takes the frames of a connection one after the other, and the writes of the answers as done.
- Server.ServeDatagram: takes the writes of the answer as done; when one fails the source does not give the buffer back.
- Channels.EndWait: leaves out decoding the reply, and takes whether the context is done as a parameter.
- `TimerCheck` deleting boxes older than ten seconds, and `Close`: further events that remove boxes.
- Several open calls to one reserved function id: they share that id as their number, and the later box replaces the earlier; the RPC law is about a box that is not touched again.
- Invoke.ConnsCall: ends where the wait begins (`Channels.BeginWait`), and does not build the `CallResp`.
- Invoke.OneNodeCompletes: does not cover HTTP connections, which carry the request outside the frame format.
- A failed write that still delivered part of a row: a failed write delivers nothing.
- Wire.MakeRspBody: for a body size below the 40 bytes of the not-found text the source would panic; such a geometry is excluded for that branch.
- Invoke.NumbersRepeatEvery65535: speaks about calls between two wraps of the 32-bit counter.
- `sendall`, the client cache of `network/rpc/fmsg.go`, `GetRemoteConn`: fan-out and lookup around `connsCall`.
- Scheduler.TwoTiersAreOne: takes the tick scan as one step, where the code launches `run` just before it deletes the key.
- `TimeSplit` and `ByNext`: nothing calls them. `CloseAndExit` and `SetTimeZone`: the run just ends, the zone is a parameter.
- CatchUp.NextDue: reads the clock once, where the code reads it anew in each round; parsing and formatting of stamps are not part of this model, and the base is computed from the parsed instant.
- TimerData.TimerData.AddDuration: nil functions and nil arguments, which add nothing, are not modelled.
- Watcher persistence (`InitEnvFile`, `addEnvFile`): files. The registry starts empty, with any counter from 100 up; as written `InitEnvFile` raises the counter but passes an empty uuid to `PutApi`, which always refuses it.
- `GetFuncMsg` and `GetNodeMsg`: plain reads of the indexes that `Lookup.LookupAnswers` is about; the name index of the node table is never filled.
- WatchServer.WatchApi.Registered: leaves out the list of watchers in the answer, and takes the request's api records as values, where the code keeps the request's own objects in the registry.
- `ElectResult` and the choice of a winner: a stub in the source.
- Campaign.WatchElect.Elect: the notices are its result; the goroutines that send them share the loop variable and collect answers unordered, which is not modelled.
