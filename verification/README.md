# Verified model of MPIPCL partitioned communication

MPIPCL implements the partitioned communication of MPI 4.0 (Chapter 4, sections 4.2.1 and 4.2.2) on
top of persistent point-to-point requests. A user cuts a buffer into partitions and marks each one
ready from its own thread; the library sends the buffer as a possibly different number of internal
messages, and the receiver may ask for the arrival of each of its own partitions. Set-up may run in
a background thread while the user already starts the request and marks partitions.

`dafny verify dfyconfig.toml` checks the whole project.

## How the model is laid out

- `Partitioning.dfy`: which messages a partition is mapped to, and how that lies over the elements
  of the buffer. The C code takes `ceil` of an integer quotient, so it rounds down; the model does too.
- `Mpi.dfy`, `Basics.dfy`: the phases of a persistent request (inactive, started, complete), what
  `MPI_Testall` does to an array of them, and the shared enumerations.
- `Negotiation.dfy`: how both sides arrive at the number and size of the messages.
- `Tally.dfy`: what a list of `MPIP_Pready` calls adds to the counters.
- `Requests.dfy`: the request object as a class with its arrays, every function of the library that
  changes it as a method. A call is one uninterrupted piece of code here.
- `Pairing.dfy`: two request objects negotiating with each other.
- `Completion.dfy`: `MPIP_Testall`, `MPIP_Testsome` and `MPIP_Waitsome` over an array of requests.
- `SendCounting.dfy`: any number of interleaved `general_send` calls over one array of counters, one
  atomic increment or one `MPI_Start` at a time.
- `SendProtocol.dfy`: the sending side as a step system. One thread calls `MPIP_Start`
  (`Begin`, `Reset`) and `MPIP_Wait` (`BeginWait`, `Join`, `EndWait`); every partition has a thread
  that calls `MPIP_Pready` (`Mark` writes the flag, `ReadStatus` reads the thread status under the
  lock); the background thread sets up (`SetUp`), takes the lock (`Lock`), scans the flags (`Visit`)
  and releases the lock (`Release`); `Adding`, `Firing` and `Returning` are the steps inside a
  `general_send`; `Transport` completes a message. Any enabled event may come next.
- `SendGuarantees.dfy`: what every run of the sending side guarantees.
- `SendProgress.dfy`: from anywhere in a round, the round can be brought to its end.
- `CatchUp.dfy`: the catch-up of the background thread, run alone, against the contract of the
  sequential code.
- `EarlySend.dfy`: exactly which configurations never send a message early.
- `ReceiveProtocol.dfy`: the receiving side as a step system, with any number of threads inside
  `MPIP_Parrived`.
- `ReceiveRuns.dfy`: how runs of the receiving side are built; either thread may start the receives.
- `Polling.dfy`: one call of `MPIP_Parrived` alone, what its answer means for later calls, and what two
  calls at once can do to each other.
- `WholeAndParts.dfy`: exactly when completion of the request and arrival of its partitions are
  equivalent in every run.
- `EndToEnd.dfy`: both sides, both buffers and one queue per tag; any number of rounds, the sender
  possibly ahead; the users write into their buffers whenever MPI lets them.
- `BufferLayout.dfy`: the bytes of a message in the request object and its elements in the step system.
- `SystemRuns.dfy`: how runs of the whole system are built, and that they are runs of either side.
- `RoundProgress.dfy`: from anywhere in a round of the receiver, its wait can be brought to return.
- `ManyRounds.dfy`: any further round can be brought to its end, and can carry any contents.
- `Misdelivery.dfy`: exactly which configurations deliver the right values in every run.
- `Causality.dfy`: exactly which configurations make every positive answer of `MPIP_Parrived` mean
  that the elements are there.

A run is a sequence of events, `Possible` says that each is enabled in the state the earlier ones
lead to, and `After` is the state at its end. The results below hold for every possible run.

## What the code does not do

`MPIP_Pready` writes its flag outside the lock and reads the thread status under the lock afterwards.
When the catch-up scan falls between the two, the partition goes through `general_send` twice. With
one partition per message this is harmless. With several, the counter of its message reaches the
threshold one partition early, and the message can leave before its last partition is ready, against
the documentation of `internal_status` at `include/mpipcl.h:101-108`. There is one scan, in the first
round, so the damage is confined to the first round, and there to the messages of the partitions that
were caught in the gap (`gap` in the step system): `SendGuarantees.CountersExactly` gives every
counter, and `NoEarlySendInRuns`, `DeliveredOnCompletion` and `ArrivalCausality` hold in every later
round of every run, and in the first round for every message that takes a single partition or has
none of its partitions in the gap (`Harmless`). `EarlySend.NeverEarlyExactly`,
`Misdelivery.DeliveryExactly` and `Causality.CausalityExactly` say exactly which aligned configurations
are affected: those in which the receiver decides the message count and has fewer partitions than the
sender.

When neither count divides the other, the rounding leaves messages that nobody starts and messages
that carry elements of partitions they are not gated on, and a receiver reports partitions as arrived
of which a message is missing; `ExactlyOnceIffAligned`, `RangesCoverOverlapsIffAligned`,
`WholeIsItsPartsIffAligned` and `CausalityExactly` give the exact condition. If it is the sender's
counts that are not aligned, no round of the receiver ever ends (`SomeRoundEndsIffAligned`). With more partitions than
messages and no divisibility, the computed message index leaves the array for some ids
(`GroupIndexInBoundsIffDivides`, `AllInRangeIffSafe`). The sender's step system starts from layouts
where it does not (`Safe`). The receiver's starts from any, because starting, waiting and testing never
use the index; a thread is only assumed to ask for partitions whose index is in bounds
(`PollsStayInside` shows that this is all it takes).

The comment at `library/source/send.c:103` says that the results of concurrent calls of
`map_recv_buffer` are all identical. They are not: a call that tested its messages before they arrived
may store its 0 after another call has yielded 1, and takes the flag of the partition down again
(`Polling.StaleAnswer`). No call that tests afterwards is misled (`Polling.AnswersStay`).

The documentation in `README.md` of the repository says that mode `RECEIVER` uses the sender's
partition count; the code uses the receiver's, and so does the model.

## What is assumed

- Counts and sizes are positive, the sender's ids are mapped inside the array, both sides describe the
  same number of elements, and each side's messages cover its buffer (`include/mpipcl.h:141`);
  `Negotiation` shows when negotiation achieves it.
- A partition is marked at most once per round, after `MPIP_Start` has returned, and its elements are
  not written again before the wait of the round has returned.
- `MPIP_Parrived` is called for a partition only if its range of messages lies inside the array, or
  while set-up is running and the range is not looked at.
- The sender waits only after every `MPIP_Pready` of the round has returned, and starts a request
  only while it is inactive. The receiver does not start a request while a thread is inside
  `MPIP_Parrived`.
- `threaded = RUNNING` is in place before the new thread runs; the code assigns it just after creating
  the thread.
- The flags of a new request are down in the step systems. `prep` leaves them uninitialised and
  `MPIP_Start` skips the reset while set-up is running, so the constructor of the class leaves them
  arbitrary.
- Steps are sequentially consistent.

## Model

| member | source | states |
|---|---|---|
| Partitioning.RangesTile | library/source/send.c:35-52 | with no more partitions than messages the closing assertion never fails, ranges of distinct ids are disjoint, together they are exactly the first `(parts/local_parts)*local_parts` messages, and message i is in the range of id `i/(parts/local_parts)` |
| Partitioning.RangesCoverIffDivides | library/source/send.c:40-51 | the ranges reach every message if and only if the partition count divides the message count |
| Partitioning.GroupIndexInBoundsIffDivides | library/source/send.c:68-73 | with more partitions than messages, the message index is in bounds for every id if and only if the message count divides the partition count |
| Partitioning.GroupIsInterval | library/source/send.c:68-73 | with more partitions than messages, each message is the image of exactly `local_parts/parts` consecutive ids |
| Partitioning.GroupFillsSlice | library/source/send.c:68-73 | and the elements of those partitions are exactly the slice of the message |
| Partitioning.MappersSize | library/source/send.c:63-73 | when one count divides the other, every message is gated on exactly `threshold` partitions |
| Partitioning.AlignedMapsExactlyOverlaps | library/source/send.c:35-75 | and a partition is counted towards exactly the messages that carry some of its elements |
| Partitioning.RangesCoverOverlapsIffAligned | library/source/send.c:111-122 | the range of every partition takes in all messages with its elements if and only if one count divides the other, whatever the two counts |
| Partitioning.UnalignedMisses | library/source/send.c:111-122 | otherwise some partition whose range is in bounds has an element in a message its range leaves out |
| Partitioning.AllInRangeIffSafe | library/source/send.c:35-73 | all ids are mapped to non-empty ranges inside the array if and only if there are no more partitions than messages or the message count divides the partition count |
| Partitioning.AllReachedIffAligned | library/source/send.c:63-73 | every message has a partition that counts towards it if and only if one count divides the other |
| Partitioning.SlicesPartitionBuffer | library/source/setup.c:150-182 | the slices lie in the buffer, are pairwise disjoint and cover it |
| Partitioning.ByteSlicesDisjoint | library/source/setup.c:153-170 | the same in bytes for a positive extent |
| Partitioning.NoIntOverflow | library/source/setup.c:153 | if the element count fits a C int, no product formed in int arithmetic overflows |
| Negotiation.SidesAgree | library/source/sync.c:9-40 | as functions of one mode and both users' cuts, the cuts the two sides end with are the same; that two request objects come to these cuts is `Pairing.NegotiatePair` |
| Negotiation.ElementsConserved | library/source/sync.c:9-40 | on buffers of equal size the messages cover each side's buffer if and only if a side drives the negotiation or the fixed count divides the elements |
| Negotiation.NegotiatedGeometries | library/source/setup.c:55-127 | a completed negotiation leaves both sides with the same slices of buffers of the same size, and the driving side aligned |
| Pairing.NegotiatePair | library/source/setup.c:55-127 | both sides negotiate, the cut the driver sends reaching the set-up thread of the other: with a driver they end with the same count, size, offsets and tags; two positive SET values match if and only if they are equal and cut the buffers into messages of one size |
| Tally.HitsOfDistinct | library/source/send.c:78-87 | without repetitions the tally of a message is the number of listed partitions mapped to it |
| Tally.HitsOfConcat | library/bindings/MPIP_Pready_list.c:11-19 | marking a set in pieces counts like marking it at once |
| Tally.HitsOfPermutation | library/bindings/MPIP_Pready_range.c:11-19 | the order of the calls does not change the tally |
| Requests.Request.Prep | library/source/setup.c:13-52 | `prep`: an inactive request without messages or set-up thread and with uninitialised flags |
| Requests.Request.SyncHard | library/source/sync.c:9-13 | the elements are conserved if and only if the option divides them |
| Requests.Request.SyncSide | library/source/sync.c:16-40 | the driver sends and keeps its own cut, the other side takes over what it receives |
| Requests.Request.SyncDriver | library/source/setup.c:55-127 | the side that does not decide leaves with set-up running; every other way ends with the messages set up: its own cut if it decides, n messages of a n-th of the elements for a positive SET value n, one message otherwise |
| Requests.Request.InternalSetup | library/source/setup.c:132-186 | message i has offset `i*size*extent`, `size` elements, tag `tag+i`, a zero counter and is inactive; the messages follow each other from byte 0 to `parts*size*extent` |
| Requests.SetUpTiles | library/source/setup.c:150-182 | no byte of the buffer belongs to two of these messages, each byte to one, and no tag is used twice |
| Requests.SetUpSlices | library/source/setup.c:153-170 | message i has the bytes of exactly the elements from `i*size` up to `(i+1)*size` |
| BufferLayout.TransportTakesMessage | library/source/setup.c:154-163 | the transport takes exactly these elements of a started message out of the send buffer |
| BufferLayout.DeliveryFillsMessage | library/source/setup.c:169-178 | and a delivery fills exactly these elements of the receive buffer |
| Requests.Request.ResetStatus | library/source/setup.c:189-200 | all counters zero, all flags down |
| Requests.Request.Start | library/bindings/MPIP_Start.c:12-39 | active; while set-up runs nothing else changes, otherwise counters and flags are reset and a receiver starts all its receives |
| Requests.Request.GeneralSend | library/source/send.c:55-99 | the counters grow by the tally of the one partition, exactly the messages that reach the threshold are started, each while inactive |
| Requests.Request.SendReady | library/source/send.c:10-20 | the counters grow by the tally of the partitions whose flag is up |
| Requests.Request.Pready | library/bindings/MPIP_Pready.c:12-37 | the flag goes up; the partition is sent unless set-up is running |
| Requests.Request.PreadyRange | library/bindings/MPIP_Pready_range.c:11-19 | flags and counters after all ids of the inclusive range; a range that is empty, whatever its ends, does nothing |
| Requests.Request.PreadyList | library/bindings/MPIP_Pready_list.c:11-19 | flags and counters after all ids of the list |
| Requests.Request.MapRecvBuffer | library/source/send.c:104-138 | a raised flag answers at once and changes nothing; otherwise the answer and the new flag are the outcome of testing the covering messages |
| Requests.Request.Parrived | library/bindings/MPIP_Parrived.c:12-31 | 0 without effect while set-up runs, otherwise cached or live arrival, which is cached; a successful live test deactivates the messages of the range, and nothing else changes |
| Requests.Request.Test | library/bindings/MPIP_Test.c:14-48 | yields 1 if and only if the request is active, set up and none of its messages is under way; it and its messages are then inactive, otherwise nothing changes |
| Requests.Request.ThreadedSyncDriver | library/source/sync.c:44-71 | takes over the partner's cut, sets up, and catches up: an active receiver starts all receives, an active sender sends the tally of its raised flags |
| Requests.Request.Wait | library/bindings/MPIP_Wait.c:14-39 | set-up is over, all messages are inactive, the request is inactive; the counters are as before or, if set-up was still running, those of the catch-up |
| Requests.CatchUpIsLateMarking | library/source/sync.c:61-65 | marking partitions while set-up runs and catching up comes to the same tally as marking them afterwards |
| Requests.OrderDoesNotMatter | library/bindings/MPIP_Pready_range.c:11-19 | lists with the same entries leave identical flags, counters and started messages |
| Completion.Testall | library/bindings/MPIP_Testall.c:12-29 | every request is tested; the flag is 1 if and only if all of them were active, set up and without a message under way |
| Completion.Testsome | library/bindings/MPIP_Testsome.c:12-33 | the indices are strictly increasing and exactly those of the requests that were active, set up and without a message under way |
| Completion.Waitsome | library/bindings/MPIP_Waitsome.c:10-35 | when it reports something, earlier passes reported nothing and the indices are those whose test succeeded in the last pass; if some request is complete at the call it does report something |
| Completion.PositionsExact | library/bindings/MPIP_Waitsome.c:26-31 | reported indices are strictly increasing and are exactly the successes |
| Completion.StartAt | library/bindings/MPIP_Start.c:12-39 | `MPIP_Start` on one of several requests is a `StartOne` call of the sequences `OncePerActivation` ranges over; the other requests do not change |
| Completion.WaitAt | library/bindings/MPIP_Wait.c:14-39 | likewise `MPIP_Wait` is a `WaitOne` call, set-up still running or not |
| Completion.SetUpAt | library/source/sync.c:44-71 | likewise the end of a set-up thread is a `SetUpOne` call |
| Completion.OncePerActivation | library/bindings/MPIP_Test.c:18-44 | over any sequence of tests, waits, set-ups, starts of other requests and transport without a start of the request, its tests succeed at most once, and never if it was inactive |
| Completion.ReportsOnce | library/bindings/MPIP_Test.c:18-44 | a started request whose messages are over reports exactly once when it is tested again and again |
| SendCounting.AddKeeps | library/source/send.c:81-91 | an atomic increment by any of the concurrent calls is in bounds and keeps every counter equal to the number of calls that made one |
| SendCounting.FireKeeps | library/source/send.c:91-97 | a message about to be started is inactive and was not started before |
| SendCounting.SoloCallIsSequential | library/source/send.c:55-99 | a call that runs without interference does what the sequential `general_send` is specified to do |
| SendProtocol.AlwaysInv | library/source/sync.c:44-71 | the invariant of set-up, lock, flags, calls and counters holds after every run |
| SendGuarantees.CountersCountCalls | library/source/send.c:81-97 | each counter is the number of `general_send` calls that incremented it, and a message is started if and only if the counter reached the threshold and the reaching call went on |
| SendGuarantees.NeverStartsActive | library/source/send.c:91-97 | `MPI_Start` never hits an active message |
| SendGuarantees.OnceOrTwice | library/bindings/MPIP_Pready.c:18-34 | no partition is lost, none sent more than twice, and twice exactly if the scan saw its flag and its own status read came after the scan's unlock |
| SendGuarantees.CallsAreMoments | library/bindings/MPIP_Pready.c:18-34 | the two possible calls for a partition correspond to those two moments of the run |
| SendGuarantees.PreadyProceeds | library/bindings/MPIP_Pready.c:18-34 | `MPIP_Pready` never waits for set-up: once marked it goes on whenever the lock is free, and returns at once while set-up runs |
| SendGuarantees.WaitCloses | library/bindings/MPIP_Wait.c:29-36 | the return of the wait leaves the request and all messages inactive, and it can be started again |
| SendGuarantees.ExactlyOnceStart | library/source/send.c:78-98 | once all is marked and quiet, each message with a mapped partition was started exactly once, the others never, double counts or not |
| SendGuarantees.ExactlyOnceIffAligned | library/source/send.c:63-98 | all messages are started exactly once if and only if one count divides the other |
| SendGuarantees.NoEarlySendInRuns | library/source/send.c:63-97 | a message is started only after every partition with elements in it was marked in the round: always from the second round on, and in the first for every message that takes one partition or has none of its partitions in the gap |
| SendGuarantees.CountersExactly | library/source/sync.c:61-65 | once set-up is over and the calls have returned, each counter is the tally of the marked partitions plus one for each of them caught in the gap of this round, and a message is started exactly if its counter reached the threshold |
| SendGuarantees.ThreadedRefinesSynchronous | library/source/sync.c:44-71 | a message has the counter of sequential calls on a request set up beforehand if and only if it is a later round or none of its partitions was in the gap; then, or with a threshold of 1, it is started exactly if they start it |
| CatchUp.AloneIsSequential | library/source/sync.c:44-71 | if nothing runs beside the background thread from negotiation to unlock, it leaves what the sequential `threaded_sync_driver` promises: the fresh messages after the tally of the raised flags |
| CatchUp.CanFinishAlone | library/source/sync.c:44-71 | and it can always get from there to the unlock without anybody else moving |
| CatchUp.WholeRoundBeforeSetUp | library/source/sync.c:53-67 | all calls of the first round may come before set-up begins; the background thread, alone, then starts exactly the messages some partition is mapped to |
| SendProgress.RoundCanEnd | library/bindings/MPIP_Wait.c:14-39 | from every state of a round some continuation ends it: no interleaving leads into a dead end |
| EarlySend.ThreadedGroupSendsEarly | library/bindings/MPIP_Pready.c:18-34 | for every threaded configuration that groups partitions, a run that starts message 0 without its last partition |
| EarlySend.UnalignedSendsEarly | library/source/send.c:43-44 | for every safe layout that is not aligned, a run that starts a message without a partition it carries |
| EarlySend.NeverEarlyExactly | library/source/send.c:63-97 | no run sends early if and only if one count divides the other and either the threshold is 1 or set-up is not in the background |
| ReceiveProtocol.AlwaysInv | library/bindings/MPIP_Start.c:12-39 | the invariant of set-up, lock, cache, polls and receives holds after every run, for any two counts |
| ReceiveProtocol.OneThreadStartsReceives | library/bindings/MPIP_Start.c:15-36 | exactly one of user thread and background thread starts the receives of a round, after all messages exist and while none is active |
| ReceiveRuns.EitherThreadCanStart | library/bindings/MPIP_Start.c:15-36 | both orders occur: in some run the user thread starts the receives, in some run the background thread |
| ReceiveRuns.ThreadStarts | library/source/sync.c:55-61 | the user thread may be through `MPIP_Start` and inside `MPIP_Wait` before set-up begins |
| ReceiveProtocol.CompletionCloses | library/bindings/MPIP_Wait.c:29-36 | the return of a wait or a successful test leaves the request and all messages inactive, and it can be started again once no thread is polling |
| ReceiveProtocol.TestCompletesIff | library/bindings/MPIP_Test.c:18-44 | a test completes if and only if set-up is over and no message is under way, and otherwise changes nothing |
| ReceiveProtocol.CacheAgreesWithLiveCheck | library/source/send.c:106-135 | a cached arrival is one a fresh test would report |
| ReceiveProtocol.PollsStayInside | library/source/send.c:104-135 | whatever a thread inside `MPIP_Parrived` is about to do, the flag and the range of messages it touches are there |
| ReceiveProtocol.AnswerMeansArrived | library/source/send.c:104-138 | `MPIP_Parrived` yields 1 only if the covering messages are over |
| Polling.ParrivedAlone | library/source/send.c:104-138 | a call alone yields 1 if and only if the flag is up or no message of the range is under way, makes its answer the flag, and deactivates the messages of the range if they tested complete |
| Polling.ParrivedTooEarly | library/bindings/MPIP_Parrived.c:16-26 | while set-up runs it yields 0 and changes nothing |
| Polling.AnswersStay | library/source/send.c:106-135 | once a call for a partition has yielded 1, every call for it that has not tested its range yet yields 1 too, until the next start |
| Polling.StaleAnswer | library/source/send.c:130-137 | a call that tested its range before can still yield 0 and take the flag down |
| ReceiveProtocol.ArrivalIsStable | library/bindings/MPIP_Start.c:24-34 | an arrived partition stays arrived until the next start |
| ReceiveProtocol.WholeImpliesParts | library/bindings/MPIP_Test.c:37-44 | a complete request has every partition arrived |
| ReceiveProtocol.PartsDecideIffAligned | library/bindings/MPIP_Test.c:37-44 | over all vectors of phases, arrival of all partitions decides completion of the whole if and only if one count divides the other |
| ReceiveProtocol.WholeIffParts | library/bindings/MPIP_Test.c:37-44 | in an aligned layout completion of the whole and arrival of all partitions are equivalent in every run |
| WholeAndParts.WholeIsItsPartsIffAligned | library/bindings/MPIP_Test.c:37-44 | completion of the whole and arrival of all partitions are equivalent throughout every run if and only if one count divides the other |
| EndToEnd.AlwaysInv | library/source/send.c:55-99 | queues, buffers and rounds of both sides stay consistent in every run; what a message carries is what was recorded, except for a message of the first round that was counted twice |
| EndToEnd.RecordIsHistory | library/bindings/MPIP_Pready.c:12-37 | the record kept of a round holds exactly what was marked in it, with the values at that moment |
| EndToEnd.DeliveredOnCompletion | library/bindings/MPIP_Wait.c:29-36 | when the receiver's wait or successful test ends its round k, an element has the value it was marked ready with in the sender's round k: in every run of an aligned sender for k >= 2, and for k = 1 unless its message takes several partitions and one of them was in the gap |
| EndToEnd.NeverEnds | library/source/send.c:40-51 | if the sender is not aligned, no wait of the receiver returns and no test of it succeeds in any run |
| EndToEnd.ArrivalCausality | library/source/send.c:104-138 | when a partition is reported arrived in round k, its elements were marked ready in the sender's round k and have those values, with the same exception |
| EndToEnd.OnlyEmptyQueuesBlock | library/source/setup.c:150-182 | in every run a side can do all its protocol allows, except receive from an empty queue |
| EndToEnd.NegotiatedIsValid | library/source/setup.c:70-127 | the pair of sides a mode and two cuts lead to: its message count and size in every mode, and which side sets up in the background |
| EndToEnd.DeliveredAfterNegotiation | library/source/setup.c:76-107 | delivery from the negotiation mode and the two users' cuts, whatever the receiver's partition count: in every run if the sender decides or a fixed count keeps its partitions inside the array, and from the second round on if the receiver decides and does so |
| RoundProgress.RoundCanComplete | library/bindings/MPIP_Wait.c:14-39 | from every state of a pair with an aligned sender and the receiver in round k some continuation brings its wait of round k to return |
| RoundProgress.RoundCanDeliver | library/bindings/MPIP_Wait.c:29-36 | with the sender set up, one that delivers every message that cannot have been counted twice |
| RoundProgress.SomeRoundEndsIffAligned | library/bindings/MPIP_Wait.c:14-39 | a round of the receiver can end at all if and only if one of the sender's counts divides the other |
| ManyRounds.EveryRoundCanEnd | library/bindings/MPIP_Start.c:12-39 | from every state of a pair with an aligned sender, every round of the receiver that is not over can be brought to the return of its wait |
| ManyRounds.AnythingCanBeSent | library/source/send.c:55-99 | from every state between two rounds of an aligned sender, any contents of the send buffer can be brought to the receive buffer in its next round |
| SystemRuns.ReceiverRun | library/source/sync.c:44-71 | what happens to the receiver in a run of the pair is a run of the receiver alone |
| SystemRuns.SenderRun | library/source/sync.c:44-71 | and likewise for the sender |
| Misdelivery.SometimesWrong | library/bindings/MPIP_Pready.c:18-34 | if the sender groups partitions and sets up in the background, some run ends the receiver's first round with a value that was never marked ready |
| Misdelivery.DeliveryExactly | library/source/sync.c:61-65 | every run delivers in round k what was marked in round k if and only if k is not 1, or one partition starts each message, or the sender does not set up in the background |
| Causality.UnalignedNotCausal | library/source/send.c:111-135 | a receiver that is not aligned has a run that reports a partition with an element that has not arrived |
| Causality.GroupingNotCausal | library/bindings/MPIP_Pready.c:18-34 | if the sender groups partitions and sets up in the background, a run reports a partition with a value that was never marked ready |
| Causality.CausalityExactly | library/source/send.c:104-138 | for an aligned sender, every positive answer is causal in every run if and only if the receiver is aligned, and one partition starts each message or the sender does not set up in the background; for an aligned receiver the later rounds are causal in any case |

## Left out

- The inside of MPI: transport, datatypes, communicators, statuses and error codes. A message is taken
  out of the send buffer and put into the receive buffer in one step each, at any moment between its
  start and its completion.
- Weak memory: the relaxed atomic increments and the unlocked accesses to `state` and `local_status`
  are taken as sequentially consistent steps.
- Parsing of the `MPI_Info` strings; the mode and the count are parameters. A count that is not
  positive becomes 1, as in the code.
- The narrowing of the partition size from `MPI_Count` to `int`; counts are mathematical integers, and
  `NoIntOverflow` says when the products fit.
- Allocation, freeing, mutexes beyond mutual exclusion, `MPIP_Request_free`, debug output.
- Several requests negotiating at once on the fixed tag 990, and requests with overlapping tag ranges.
- Completion.Waitsome: the polling is given up after a number of passes, because termination depends
  on the network; the contract says what holds when something is reported.
- Requests.Request.Wait: the blocking `MPI_Waitall` is its outcome, all messages over; that it can
  return is `SendProgress.RoundCanEnd` on the sending side.
- The step systems are states and events as values, not objects: the methods of `Requests` are the
  sequential code, and `SendCounting.SoloCallIsSequential` and `CatchUp.AloneIsSequential` connect one
  uninterrupted call, and one uninterrupted catch-up, of the step system to the contracts of the methods.
- Causality.CausalityExactly: takes the sender to be aligned. With one that is not, messages leave
  early (`EarlySend.UnalignedSendsEarly`) and others never do, so whether an answer for some partition
  can be wrong depends on which messages its range happens to take in.
- Modes that do not match, such as a driver on one side and a fixed count on the other: one side waits
  for a message that is never sent.
- `MPIP_Test` on the sending side inside the interleavings: a successful one does what `EndWait` does,
  a failed one nothing.
- `MPIP_Startall`, `MPIP_Waitall`, `MPIP_Waitany`, `MPIP_Testany` and the two init wrappers: thin loops
  over what is modelled.
