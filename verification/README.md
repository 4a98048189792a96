# Verified model of the Datagine market-data engine

This project models the parts of Datagine that carry state or protocol, and proves what they keep:

- **Books.** `Ledger` is the reference meaning of a book: the live orders in the order of acceptance, and a
  wrapping 64-bit count of accepted events. `LimitOrderBook` (per-price lists, iterators, cached totals) and
  `PooledLimitOrderBook` (doubly linked queues threaded by index through one node array, a LIFO free list, two
  price maps and a lookup table) are classes with the original's fields; every operation is proved to do to the
  ledger exactly what `Ledger.Step` (or, with a full pool, `Ledger.BoundedStep`) says, and every query shows exactly
  the ledger. `History` then tells whole runs from the event list alone: who rests, in which order, with how much.
- **Invariant checkers.** Both `validate_invariants` are modelled on arbitrary states, including cyclic and dangling
  links, and decide exactly a coherence predicate that does not mention how the state came about.
- **Queue.** `SpscRingBuffer` is the ring buffer as an object; `SpscProtocol` is the same code as a two-thread state
  machine with one shared access per step, in which an acquire load may return any value of the counter's
  modification order from the last one its thread saw onward. `QueuedReplay` composes it with a book, and
  `QueuedProgress` bounds the length of every fair run, also with loads that lag.
- **Replay, checksum, CSV.** The replay loop over a file's lines, the FNV-1a checksum with a decoder for its byte
  stream, and the CSV parser with its round trip. `DocumentedReplay` takes the documentation's example from the text
  of its rows to the checksum it prints.
- **What is shown.** `Shown` says what top, depth and snapshot show in terms of the live orders alone.
- **Anomaly arithmetic.** EWMA mean and variance against their batch definition, and rolling windows against the full
  history, over exact reals.

Integers of 64 bits are `Types.U64` and `Types.I64`; sums and differences that may wrap go through `Types.Wrap`.
A std::map is a Dafny map with `Views.PriceOrder` as its iteration order; an unordered map is a Dafny map iterated in
arbitrary order. Statements that several methods of the original repeat for the two sides are written once with the
side as a parameter. `hide` statements only keep definitions out of a proof.

Places where the code does not do what its documentation or a natural reading promises; the model follows the code and
states exactly when the promise holds:

- The depths and their sum are 64-bit sums, which wrap. `FeatureExtractor.DepthAsDocumented` and
  `FeatureExtractor.ImbalanceAsDocumented` say exactly when depth and imbalance are the documented ones;
  `FeatureExtractor.WrappedImbalance` and `FeatureExtractor.WrappedDepth` give inputs where they are not.
- A window only pops entries off its front, so it agrees with a recount of the history only while timestamps keep to
  what `RollingWindow.AgreesExactly` states, as timestamps that never go back do. `RollingWindow.StrandedEntryStays` and
  `RollingWindow.RevivedEntryIsGone` give timestamps that do not.
- A window of negative length still holds the event just observed: `RollingWindow.NegativeWindow`, with an input in
  `RollingWindow.NegativeWindowHoldsNewest`.
- The direct benchmark loop stops at the first rejected event, the queued one does not:
  `QueuedReplay.SameBookExactly`, with a list in `QueuedReplay.LoopsPart`.
- The smoothing factor of the detector is not validated, and outside [0, 1] the variance can be negative:
  `EwmaDetector.VarianceNonNegativeExactly`.

## Model

| member | source | states |
|---|---|---|
| Views.PriceOrderUnique | include/datagine/book/limit_order_book.hpp:120-121 | the iteration order of a price map is the only listing of its prices from best to worst: bids from the highest, asks from the lowest |
| Views.CrossedByOrders | src/book/limit_order_book.cpp:253-257 | the best bid is above the best ask exactly when some resting buy is priced above some resting sell |
| Shown.QueuePicks | src/book/limit_order_book.cpp:53-59 | a queue is the live orders at its side and price, in order of acceptance, each once |
| Shown.TopShows | src/book/limit_order_book.cpp:163-177 | the top shows the highest resting buy price and the lowest resting sell price, each with the quantity resting there modulo 2^64 and the number of orders, and nothing for an empty side |
| Shown.DepthShows | src/book/limit_order_book.cpp:179-193 | depth shows the best prices of each side, as many as asked for or as there are, best first, each with quantity and number of orders |
| Shown.BestPricesUnique | src/book/limit_order_book.cpp:184-190 | the best prices are determined: as many as asked for or as there are, each better than every one left out |
| Shown.SnapshotShows | src/book/limit_order_book.cpp:195-235 | the bids are exactly the prices of resting buys from the highest down, the asks those of resting sells from the lowest up, each with its quantity modulo 2^64 and with id, timestamp and quantity of exactly the orders resting there in order of acceptance |
| Ledger.StepWellFormed | src/book/limit_order_book.cpp:30-134 | every event leaves live orders with distinct ids and positive quantities |
| Ledger.QueueWithout | src/book/limit_order_book.cpp:403-425 | removing an order takes it out of its own queue, keeps the order of the rest, and leaves other queues alone |
| Ledger.QueueWithQuantity | src/book/limit_order_book.cpp:96-100 | reducing an order keeps its place in its queue and leaves other queues alone |
| Ledger.SumWithout | src/book/limit_order_book.cpp:409-410 | a queue's total drops by exactly the quantity of the order removed |
| Ledger.SumWithQuantity | src/book/limit_order_book.cpp:97-100 | a queue's total drops by exactly the reduction |
| History.RunIsSurvivors | src/book/limit_order_book.cpp:30-134 | after any run the live orders are the accepted adds not yet cancelled or fully executed, in order of acceptance, each with what its id's later events left of it; an add is accepted exactly when no accepted add of its id still rests |
| History.ResultsFromHistory | src/book/limit_order_book.cpp:36-121 | the answer to every event of every run, from the earlier events alone: each refusal exactly when the history warrants it, Applied otherwise |
| History.PriceTimePriority | src/book/limit_order_book.cpp:53-59 | after any run the queue at a side and price lists exactly the resting adds there by increasing index of their event, not by timestamp; partial executes and reducing modifies keep the place and a re-added id goes to the tail |
| History.QuantityConserved | src/book/limit_order_book.cpp:65-134 | in unbounded integers, resting plus accepted adds equals resting afterwards plus executed plus cancelled plus given up by modifies |
| History.AppliedIsCount | src/book/limit_order_book.cpp:61-62 | the counter of accepted events is the number of accepted events modulo 2^64 |
| BaselineShape.IteratorPlace | src/book/limit_order_book.cpp:53-59 | the stored iterator of a live order designates the order's place in its level's list and no other |
| BaselineShape.AddKeepsShape | src/book/limit_order_book.cpp:44-62 | an accepted add keeps lists, cached totals modulo 2^64, lookup and iterators in agreement with the ledger |
| BaselineShape.RemoveKeepsShape | src/book/limit_order_book.cpp:403-425 | a removal keeps them in agreement and erases a level exactly when its queue becomes empty |
| BaselineShape.ResizeKeepsShape | src/book/limit_order_book.cpp:96-104 | a reduction keeps them in agreement |
| BaselineShape.LevelView | src/book/limit_order_book.cpp:403-425 | in every reachable state a level exists exactly when its queue is non-empty, and its cached total is the sum of its queue modulo 2^64 |
| LimitOrderBook.LimitOrderBook.constructor | include/datagine/book/limit_order_book.hpp:78-146 | a new book is empty |
| LimitOrderBook.LimitOrderBook.AddOrder | src/book/limit_order_book.cpp:30-63 | result and new ledger of an add in every case |
| LimitOrderBook.LimitOrderBook.RemoveExistingOrder | src/book/limit_order_book.cpp:403-425 | exactly the order of this id leaves the ledger |
| LimitOrderBook.LimitOrderBook.CancelOrder | src/book/limit_order_book.cpp:65-74 | result and new ledger of a cancel in every case |
| LimitOrderBook.LimitOrderBook.ReduceOrder | src/book/limit_order_book.cpp:96-100 | exactly the order of this id changes, to the given quantity, in place |
| LimitOrderBook.LimitOrderBook.ModifyOrder | src/book/limit_order_book.cpp:76-104 | result and new ledger of a modify in every case; increases are refused |
| LimitOrderBook.LimitOrderBook.ExecuteOrder | src/book/limit_order_book.cpp:106-134 | result and new ledger of an execute in every case; a full execute removes the order |
| LimitOrderBook.LimitOrderBook.Apply | src/book/limit_order_book.cpp:136-154 | any event takes the ledger one step and is answered as that step says |
| LimitOrderBook.LimitOrderBook.Clear | src/book/limit_order_book.cpp:156-161 | the book is empty again, counter included |
| LimitOrderBook.LimitOrderBook.TopOfBook | src/book/limit_order_book.cpp:163-177 | the first entries of the two maps; in a reachable book the highest resting buy and the lowest resting sell price with quantity and order count |
| LimitOrderBook.LimitOrderBook.SideDepth | src/book/limit_order_book.cpp:184-190 | one side's best levels, at most the requested number, with total modulo 2^64 and order count |
| LimitOrderBook.LimitOrderBook.Depth | src/book/limit_order_book.cpp:179-193 | each side's best prices, as many as asked for or as there are, with quantity modulo 2^64 and order count |
| LimitOrderBook.LimitOrderBook.SideSnapshot | src/book/limit_order_book.cpp:200-215 | every level of one side with its orders in queue order |
| LimitOrderBook.LimitOrderBook.Snapshot | src/book/limit_order_book.cpp:195-235 | every resting order on its side and price, prices best first and orders in order of acceptance, with the quantity of each price modulo 2^64 |
| LimitOrderBook.LimitOrderBook.OrderIdsAtPrice | src/book/limit_order_book.cpp:237-250 | the ids of the queue at a side and price, front to back |
| LimitOrderBook.LimitOrderBook.ValidateLevel | src/book/limit_order_book.cpp:285-331 | on any state, true exactly when the level is coherent; the seen ids grow by exactly its ids |
| LimitOrderBook.LimitOrderBook.ValidateSide | src/book/limit_order_book.cpp:333-343 | on any state, true exactly when every level of the side is coherent |
| LimitOrderBook.LimitOrderBook.ValidateInvariants | src/book/limit_order_book.cpp:252-361 | on any state, true exactly when the state is coherent and crossing is allowed or absent; on reachable states only the crossing matters |
| BaselineCoherence.ShapeIsCoherent | src/book/limit_order_book.cpp:252-361 | every reachable state is coherent |
| BaselineCoherence.CoherentExactly | src/book/limit_order_book.cpp:281-361 | what the checker decides of any state: it is coherent exactly when its levels, lists and records hold some ledger of distinct ids and positive quantities |
| PooledShape.LinkedThreads | src/book/pooled_limit_order_book.cpp:407-420 | linking a fresh node behind the tail extends the doubly linked chain by it |
| PooledShape.UnlinkedThreads | src/book/pooled_limit_order_book.cpp:422-439 | bypassing a node takes exactly it out of the chain, with both directions still mutually inverse |
| PooledSteps.AddKeepsShape | src/book/pooled_limit_order_book.cpp:29-55 | an accepted add keeps chains, totals, lookup and free list in agreement with the ledger |
| PooledSteps.RemoveKeepsShape | src/book/pooled_limit_order_book.cpp:480-504 | a removal keeps them in agreement and returns the node to the free list |
| PooledSteps.ResizeKeepsShape | src/book/pooled_limit_order_book.cpp:89-96 | a reduction keeps them in agreement |
| PooledSteps.PoolCount | src/book/pooled_limit_order_book.cpp:392-405 | free nodes plus live orders are the capacity, so the free list is empty exactly when the book is full |
| PooledCoherence.ThreadedInjective | src/book/pooled_limit_order_book.cpp:282-333 | a chain whose links are mutually inverse and end in npos visits no node twice |
| PooledCoherence.PathOnChain | src/book/pooled_limit_order_book.cpp:282 | following next from the head of a level with a chain never leaves the chain |
| PooledCoherence.ChainsDisjoint | src/book/pooled_limit_order_book.cpp:300-328 | in any memory a level has at most one chain, chains of different levels share no node, and no chain repeats one |
| PooledCoherence.ChainPasses | src/book/pooled_limit_order_book.cpp:282-333 | while a walk is on a level's chain every check of the loop passes |
| PooledCoherence.FinishedIsChain | src/book/pooled_limit_order_book.cpp:335-339 | a walk that ran to the end is the level's chain exactly when tail, count and wrapped total match |
| PooledCoherence.ShapeIsCoherent | src/book/pooled_limit_order_book.cpp:240-374 | every reachable memory is coherent |
| PooledCoherence.CoherentExactly | src/book/pooled_limit_order_book.cpp:269-374 | what the validator decides of any memory: it is coherent exactly when levels, links, nodes and records hold some ledger of distinct ids and positive quantities |
| PooledCoherence.ReachableVerdict | src/book/pooled_limit_order_book.cpp:240-245 | on reachable memories the first keys of the maps cross exactly when the ledger does |
| PooledCoherence.PoolPartition | src/book/pooled_limit_order_book.cpp:392-450 | in every reachable memory a node is active exactly when it is on some level's chain, the free list lists each other node once, and both together are the pool |
| PooledLimitOrderBook.PooledLimitOrderBook.constructor | src/book/pooled_limit_order_book.cpp:8-13 | a new pool is empty and all of it is free |
| PooledLimitOrderBook.PooledLimitOrderBook.ResetFreeList | src/book/pooled_limit_order_book.cpp:441-450 | every node is blank and the free list is all indices from the highest to 0 |
| PooledLimitOrderBook.PooledLimitOrderBook.AllocateNode | src/book/pooled_limit_order_book.cpp:392-400 | the last free index is taken, or none when none is free |
| PooledLimitOrderBook.PooledLimitOrderBook.ReleaseNode | src/book/pooled_limit_order_book.cpp:402-405 | the node is blanked and becomes the last free index |
| PooledLimitOrderBook.PooledLimitOrderBook.AppendNode | src/book/pooled_limit_order_book.cpp:407-420 | links, head, tail and count after appending, as the chain lemma needs them |
| PooledLimitOrderBook.PooledLimitOrderBook.UnlinkNode | src/book/pooled_limit_order_book.cpp:422-439 | links, head, tail and count after unlinking, as the chain lemma needs them |
| PooledLimitOrderBook.PooledLimitOrderBook.FileOrder | src/book/pooled_limit_order_book.cpp:34-52 | once a node is allocated the order joins the ledger behind all others |
| PooledLimitOrderBook.PooledLimitOrderBook.AddOrder | src/book/pooled_limit_order_book.cpp:15-56 | result and new ledger of an add in every case, a full pool included, which changes nothing |
| PooledLimitOrderBook.PooledLimitOrderBook.RemoveExistingOrder | src/book/pooled_limit_order_book.cpp:480-504 | exactly the order of this id leaves the ledger |
| PooledLimitOrderBook.PooledLimitOrderBook.CancelOrder | src/book/pooled_limit_order_book.cpp:58-67 | result and new ledger of a cancel in every case |
| PooledLimitOrderBook.PooledLimitOrderBook.ReduceOrder | src/book/pooled_limit_order_book.cpp:89-93 | exactly the order of this id changes, to the given quantity, in place |
| PooledLimitOrderBook.PooledLimitOrderBook.ModifyOrder | src/book/pooled_limit_order_book.cpp:69-97 | result and new ledger of a modify in every case |
| PooledLimitOrderBook.PooledLimitOrderBook.ExecuteOrder | src/book/pooled_limit_order_book.cpp:99-127 | result and new ledger of an execute in every case |
| PooledLimitOrderBook.PooledLimitOrderBook.Apply | src/book/pooled_limit_order_book.cpp:129-147 | any event takes the ledger one step of a book bounded by the capacity |
| PooledLimitOrderBook.PooledLimitOrderBook.Clear | src/book/pooled_limit_order_book.cpp:149-155 | the book is empty again and the whole pool is free |
| PooledLimitOrderBook.PooledLimitOrderBook.TopOfBook | src/book/pooled_limit_order_book.cpp:157-171 | the first entries of the two maps; in a reachable book the highest resting buy and the lowest resting sell price with quantity and order count |
| PooledLimitOrderBook.PooledLimitOrderBook.SideDepth | src/book/pooled_limit_order_book.cpp:178-180 | one side's best levels, at most the requested number |
| PooledLimitOrderBook.PooledLimitOrderBook.Depth | src/book/pooled_limit_order_book.cpp:173-187 | each side's best prices, as many as asked for or as there are, with quantity modulo 2^64 and order count |
| PooledLimitOrderBook.PooledLimitOrderBook.WalkLevel | src/book/pooled_limit_order_book.cpp:202-209 | following next from the head of a level terminates and yields its queue in order |
| PooledLimitOrderBook.PooledLimitOrderBook.SideSnapshot | src/book/pooled_limit_order_book.cpp:214-220 | every level of one side with its orders in queue order |
| PooledLimitOrderBook.PooledLimitOrderBook.Snapshot | src/book/pooled_limit_order_book.cpp:189-223 | every resting order on its side and price, prices best first and orders in order of acceptance, with the quantity of each price modulo 2^64 |
| PooledLimitOrderBook.PooledLimitOrderBook.OrderIdsAtPrice | src/book/pooled_limit_order_book.cpp:225-238 | the ids of the queue at a side and price, front to back |
| PooledLimitOrderBook.PooledLimitOrderBook.ValidateLevel | src/book/pooled_limit_order_book.cpp:273-340 | on any memory, cyclic links included, it terminates and is true exactly when the level has a chain; the seen ids grow by exactly the chain's ids |
| PooledLimitOrderBook.PooledLimitOrderBook.ValidateSide | src/book/pooled_limit_order_book.cpp:342-352 | on any memory, true exactly when every level of the side has a chain |
| PooledLimitOrderBook.PooledLimitOrderBook.ValidateInvariants | src/book/pooled_limit_order_book.cpp:240-374 | on any memory, true exactly when every level has its chain, every lookup record leads to its node on its level's chain, and crossing is allowed or absent; on reachable memories only the crossing matters |
| Lockstep.ForwardSimulation | src/book/pooled_limit_order_book.cpp:15-147 | for every event list, until the first CapacityExceeded pooled and baseline book give the same results and hold the same ledger |
| Lockstep.OverflowExactly | src/book/pooled_limit_order_book.cpp:21-32 | CapacityExceeded is answered exactly for an add of positive quantity and non-live id while live orders equal the capacity, and changes nothing |
| Lockstep.RefusedEventsVanish | src/book/pooled_limit_order_book.cpp:29-32 | over whole runs a pooled book is a baseline book that never received the refused events |
| Lockstep.PooledQuantityConserved | src/book/pooled_limit_order_book.cpp:15-127 | quantity is conserved over whole pooled runs |
| Lockstep.CompareViews | tests/test_pooled_limit_order_book.cpp:62-67 | books with one ledger show equal top, depth, snapshot, checksum, order ids at any price of either side, live count and counter |
| Lockstep.CompareBooks | tests/test_pooled_limit_order_book.cpp:41-68 | driven by any event list both books answer and show the same at every step until the first CapacityExceeded |
| Words.PowerOfTwoTest | include/datagine/queue/spsc_ring_buffer.hpp:76-78 | v & (v - 1) is 0 exactly for powers of two |
| Words.AndMask | include/datagine/queue/spsc_ring_buffer.hpp:35 | masking with a power of two less one takes the remainder |
| Words.SlotIs | include/datagine/queue/spsc_ring_buffer.hpp:35 | the slot of a counter that has wrapped any number of times is its true value modulo the capacity |
| Words.WrappedDistance | include/datagine/queue/spsc_ring_buffer.hpp:31 | the wrapped difference of two wrapped counters less than 2^64 apart is their true distance |
| Words.SlotsDistinct | include/datagine/queue/spsc_ring_buffer.hpp:35 | a window of at most a capacity of consecutive sequence numbers occupies distinct slots, across 2^64 too |
| SpscRingBuffer.CapacitiesAccepted | include/datagine/queue/spsc_ring_buffer.hpp:19 | the accepted capacities are exactly the powers of two |
| SpscRingBuffer.SpscRingBuffer.constructor | include/datagine/queue/spsc_ring_buffer.hpp:15-18 | a new queue is empty and has the given capacity |
| SpscRingBuffer.SpscRingBuffer.Create | include/datagine/queue/spsc_ring_buffer.hpp:15-22 | construction succeeds exactly for powers of two for which the buffer can be allocated |
| SpscRingBuffer.SpscRingBuffer.TryPush | include/datagine/queue/spsc_ring_buffer.hpp:27-38 | succeeds exactly when fewer than a capacity of events is queued, and then appends the event; any counter values |
| SpscRingBuffer.SpscRingBuffer.TryPop | include/datagine/queue/spsc_ring_buffer.hpp:40-51 | succeeds exactly when something is queued, and then removes and returns the oldest event |
| SpscRingBuffer.SpscRingBuffer.ApproximateSize | include/datagine/queue/spsc_ring_buffer.hpp:57-61 | with no concurrent access, the number of queued events |
| SpscRingBuffer.SpscRingBuffer.Empty | include/datagine/queue/spsc_ring_buffer.hpp:63-65 | with no concurrent access, whether nothing is queued |
| SpscRingBuffer.SpscRingBuffer.Full | include/datagine/queue/spsc_ring_buffer.hpp:67-69 | with no concurrent access, whether a capacity of events is queued |
| SpscProtocol.FullTestExact | include/datagine/queue/spsc_ring_buffer.hpp:31-33 | the wrapped full test equals the test on true counts for any admissible stale load |
| SpscProtocol.EmptyTestExact | include/datagine/queue/spsc_ring_buffer.hpp:44-46 | the wrapped empty test equals the test on true counts for any admissible stale load |
| SpscProtocol.NextInv | include/datagine/queue/spsc_ring_buffer.hpp:27-51 | every single access of either thread keeps the protocol invariant |
| SpscProtocol.RunInv | include/datagine/queue/spsc_ring_buffer.hpp:27-51 | the invariant holds in every state of every interleaving |
| SpscProtocol.Fifo | docs/spsc-ring-buffer.md:8-19 | in every interleaving events popped followed by events queued are the events pushed, and at most a capacity is queued |
| SpscProtocol.QueuedIsWaiting | include/datagine/queue/spsc_ring_buffer.hpp:80-84 | what the protocol has queued is what the object's buffer and counters hold |
| SpscProtocol.SlotsNeverShared | include/datagine/queue/spsc_ring_buffer.hpp:35-48 | the producer never writes the slot the consumer is about to read or is copying |
| SpscProtocol.RaceFree | docs/spsc-ring-buffer.md:38-61 | a write and a read of one slot are always ordered by a published and acquired counter value |
| SpscProtocol.OwnerSizes | include/datagine/queue/spsc_ring_buffer.hpp:57-61 | a size computed by the producer or the consumer is between 0 and the capacity |
| SpscProtocol.NotFullStays | include/datagine/queue/spsc_ring_buffer.hpp:67-69 | after the producer saw "not full" its next push succeeds whatever the consumer does and however stale its load |
| SpscProtocol.NotEmptyStays | include/datagine/queue/spsc_ring_buffer.hpp:63-65 | after the consumer saw "not empty" its next pop succeeds |
| QueuedReplay.QueuedIsInOrder | bench/datagine_benchmarks.cpp:451-474 | for every list, capacity, interleaving and stale load the consumer's book is the list's prefix applied in order, and its failure flag says whether an event of it was rejected |
| QueuedReplay.DirectReplay | bench/datagine_benchmarks.cpp:408-421 | the direct loop applies the list in order up to the first rejected event |
| QueuedReplay.SameBookExactly | bench/datagine_benchmarks.cpp:413-474 | with a rejected event both programs end with the same book exactly when every later event is rejected too |
| QueuedReplay.LoopsPart | bench/datagine_benchmarks.cpp:413-474 | add 1, add 1, add 2: the direct loop stops at the second event, and the two books differ |
| QueuedReplay.AdvanceWorks | bench/datagine_benchmarks.cpp:451-474 | until all is consumed some step with up-to-date loads is possible and brings the end nearer |
| QueuedReplay.CanFinish | bench/datagine_benchmarks.cpp:451-474 | from every reachable state the two threads can finish, with the book of the whole list |
| QueuedProgress.StepLowers | bench/datagine_benchmarks.cpp:451-474 | with up-to-date loads every step of the helpful thread (the producer when nothing is queued, else the consumer) brings the end nearer, and a step of the other thread does too or leaves that distance and the roles unchanged |
| QueuedProgress.HelpfulCanMove | bench/datagine_benchmarks.cpp:451-474 | until all is done that thread has a step to take |
| QueuedProgress.FairRunsFinish | bench/datagine_benchmarks.cpp:451-474 | every run with up-to-date loads in which neither thread takes more than c steps in a row while the other could take one has fewer than (c + 1)(39 n + 9) steps for n events; where it cannot go on, everything is consumed and the book is that of the whole list |
| QueuedProgress.LaggingRunsFinish | bench/datagine_benchmarks.cpp:451-474 | the same with loads that may lag: when every load returns nothing older than the newest value of d steps before, fewer than (3 n + 1)(d + 13 (c + 1)) steps |
| Checksum.HashU64 | src/replay/replay_engine.cpp:20-24 | hashing a word hashes its eight bytes, least significant first |
| Checksum.HashPriceLevel | src/replay/replay_engine.cpp:30-40 | hashing a level hashes its byte stream |
| Checksum.ChecksumSnapshot | src/replay/replay_engine.cpp:141-159 | the checksum is the FNV-1a hash of the snapshot's tagged, length-prefixed byte stream |
| Checksum.SnapshotRoundTrip | src/replay/replay_engine.cpp:141-159 | a decoder recovers every snapshot from its byte stream |
| Checksum.StreamInjective | src/replay/replay_engine.cpp:141-159 | different snapshots feed different byte streams to the hash |
| Checksum.PrimeInvertible | src/replay/replay_engine.cpp:12-18 | multiplication by the FNV prime is injective modulo 2^64 |
| DocumentedChecksum.PublishedValues | src/replay/replay_engine.cpp:11-18 | the published 64-bit FNV-1a values of the empty text and of "a" |
| DocumentedChecksum.DocumentedChecksum | README.md:178-185 | the book of one sell of 25 at 10030 has the documented checksum 0x14d123af9ea43729 |
| Checksum.OneByteMatters | src/replay/replay_engine.cpp:15-18 | streams of equal length that differ in exactly one byte never have equal hashes |
| Checksum.ChecksumSensitive | src/replay/replay_engine.cpp:141-159 | snapshots whose streams differ so never have equal checksums |
| ReplayEngine.ReplayEngine.TakeRow | src/replay/replay_engine.cpp:82-124 | one row is rejected with the parser's or the book's complaint, processed, or processed and then found to cross the book |
| ReplayEngine.ReplayEngine.ReplayFile | src/replay/replay_engine.cpp:53-131 | the book is the run of the events of the rows taken, in order; it stops with invariant_failed exactly when validation is on, crossing is not allowed and some accepted row crosses the book, at the first such row; counts, errors, final top, snapshot and checksum in every case |
| ReplayEngine.ReplayIsRun | src/replay/replay_engine.cpp:76-105 | after any number of rows the ledger is the run of exactly the event rows, unchanged and in order, and the processed rows are the events that run accepts |
| ReplayEngine.ErrorsReport | src/replay/replay_engine.cpp:82-103 | each rejected row is reported once, in order, with its line and text, and with the parser's message or the name of the book's answer |
| DocumentedReplay.RowsAreEvents | README.md:154-159 | the documented rows are read as the documented events |
| DocumentedReplay.Replay | README.md:178-185 | replaying the documented rows processes five events, rejects none, leaves no bid and 25 at 10030 offered, and gives the documented checksum |
| ReplayEngine.AppliedIsProcessed | src/replay/replay_engine.cpp:93-105 | the book's counter equals the processed rows modulo 2^64 |
| ReplayEngine.StopsOnAnAdd | src/replay/replay_engine.cpp:115-124 | before the stop the book was never crossed, and the row it stops on is an accepted add |
| EwmaDetector.EwmaZScoreDetector.ScoreSample | src/anomaly/anomaly_detector.cpp:147-168 | from min_samples samples on the score is the z-score against the batch mean and variance of the samples before it; the new state is the batch state of all samples |
| EwmaDetector.ScoreIsDistance | src/anomaly/anomaly_detector.cpp:151-153 | a score squared times the floored variance is the squared distance from the mean, and its sign is the side of the mean |
| EwmaDetector.EwmaZScoreDetector.Reset | src/anomaly/anomaly_detector.cpp:170-172 | the history is forgotten |
| EwmaDetector.OnlineIsBatch | src/anomaly/anomaly_detector.cpp:162-166 | for any alpha one online update gives the weighted mean and weighted variance of the longer history |
| EwmaDetector.WeightAt | src/anomaly/anomaly_detector.cpp:162-166 | a sample's weight decays geometrically with its age, the first sample having no factor alpha |
| EwmaDetector.MeanAndVarianceBounds | src/anomaly/anomaly_detector.cpp:155-166 | for alpha in [0, 1] the mean stays between any bounds on the samples and the variance is never negative |
| EwmaDetector.VarianceNonNegativeExactly | src/anomaly/anomaly_detector.cpp:155-166 | the variance is non-negative for every history exactly when alpha is in [0, 1], and so for the bounds on the mean |
| RollingWindow.Expire | src/anomaly/anomaly_detector.cpp:85-101 | exactly the expired entries before the first unexpired one are popped; what stays is all that is recent exactly when no expired entry stands behind an unexpired one, whatever the order of timestamps |
| RollingWindow.SuffixIsRecent | src/anomaly/anomaly_detector.cpp:85-101 | the part of a history from k on is its recent part exactly when the expired entries are the first k |
| RollingWindow.RecentExactly | src/anomaly/anomaly_detector.cpp:85-101 | the recent entries are those whose age is at most the window length, in their order |
| RollingWindow.RecentCount | src/anomaly/anomaly_detector.cpp:103-106 | their number is the number of observations of that age that brought an entry |
| RollingWindow.WindowIsSuffix | src/anomaly/anomaly_detector.cpp:34-41 | for any timestamps the window is the history less the entries popped so far |
| RollingWindow.AgreesStep | src/anomaly/anomaly_detector.cpp:34-41 | while the window has agreed with the recount, it agrees after the next observation exactly when, by the timestamps, no expired entry stands behind an unexpired one, none is unexpired again, and the new one is not expired at once |
| RollingWindow.AgreesExactly | src/anomaly/anomaly_detector.cpp:34-41 | the window agreed with the recount after every observation of a run exactly when all its timestamps keep to that |
| RollingWindow.OrderedAgrees | src/anomaly/anomaly_detector.cpp:34-41 | with timestamps that do not go back a window of non-negative length agrees with the recount after every observation |
| RollingWindow.NegativeWindow | src/anomaly/anomaly_detector.cpp:37-41 | with such timestamps a window of negative length holds what was just taken in and nothing else, where a recount has nothing |
| RollingWindow.StrandedEntryStays | src/anomaly/anomaly_detector.cpp:85-91 | times 10, 0, 11 and length 5: the expired entry of time 0 stays in the window |
| RollingWindow.RevivedEntryIsGone | src/anomaly/anomaly_detector.cpp:85-91 | times 0, 11, 3 and length 5: the popped entry of time 0 is recent again at time 3 |
| RollingWindow.NegativeWindowHoldsNewest | src/anomaly/anomaly_detector.cpp:37-41 | one event and length -1: the window holds it, the recount is empty |
| FeatureExtractor.FeatureExtractor.ExpireWindows | src/anomaly/anomaly_detector.cpp:85-101 | each window loses exactly its leading expired entries, whatever the order of timestamps |
| FeatureExtractor.FeatureExtractor.Extract | src/anomaly/anomaly_detector.cpp:34-73 | for any timestamps and window lengths rate, ratio and volatility are those of the windows of the history; while timestamps have not gone back the rate is the number of events of the last window length per second, the ratio cancels per add among them, and the volatility that of the mid prices among them; depths, spread, mid and imbalance are those of the ledger |
| FeatureExtractor.MidAndSpread | docs/anomaly-detection.md:13-15 | both exist for two-sided books; twice the mid price is the sum of the best prices, the spread their difference, negative exactly when some buy is priced above some sell |
| FeatureExtractor.SumDepth | src/anomaly/anomaly_detector.cpp:13-19 | the sum of the levels' quantities modulo 2^64 |
| FeatureExtractor.CancelAddRatio | src/anomaly/anomaly_detector.cpp:108-121 | cancels in the window over adds in it, with 1 as the least denominator |
| FeatureExtractor.MidVolatility | src/anomaly/anomaly_detector.cpp:123-142 | the square root of the population variance of the window's mid prices when there are two or more |
| FeatureExtractor.VarianceNonNegative | src/anomaly/anomaly_detector.cpp:134-141 | the value under the root is never negative |
| FeatureExtractor.VarianceByPairs | src/anomaly/anomaly_detector.cpp:128-141 | n^2 times the variance of n mid prices is the sum of the squared differences of all pairs |
| FeatureExtractor.VolatilityIsDeviation | docs/anomaly-detection.md:28-29 | the volatility is the standard deviation: non-negative, its square the variance of the mid prices |
| FeatureExtractor.DepthAsDocumented | docs/anomaly-detection.md:16-17 | a depth is the quantity resting at the N best prices, or at all if there are fewer, modulo 2^64, and so the documented aggregate exactly when that is below 2^64 |
| FeatureExtractor.ImbalanceAsDocumented | docs/anomaly-detection.md:18-22 | of the two depths the imbalance is the documented quotient exactly when their sum does not wrap, or they are equal and it does not wrap to 0 |
| FeatureExtractor.ImbalanceOfAggregates | docs/anomaly-detection.md:16-22 | of the aggregates b + 2^64 p and a + 2^64 q themselves: documented exactly when b + a is below 2^64, not 0 and b q = a p, or above 2^64 and (2q + 1)(2b - 2^64) = (2p + 1)(2a - 2^64); so whenever the aggregates together are below 2^64 |
| FeatureExtractor.WrappedImbalance | src/anomaly/anomaly_detector.cpp:60-66 | depths of 2^64 - 1 and 2 give an imbalance near 2^64, documented below 1; depths of 2^63 each give none, documented 0 |
| FeatureExtractor.WrappedDepth | src/anomaly/anomaly_detector.cpp:13-19 | with buys of 2^63 at 100 and 99 and a sell of 5 at 200 the bid depth is 0 instead of 2^64 and the imbalance -1, documented above 0.99 |
| CsvParser.TrimmedBetween | src/feed/csv_parser.cpp:18-28 | trimming recovers any text without blank ends from between any blanks |
| CsvParser.Trim | src/feed/csv_parser.cpp:18-28 | only blanks are cut, and no blank is left at either end |
| CsvParser.SplitCsvColumns | src/feed/csv_parser.cpp:30-46 | the trimmed columns of the row |
| CsvParser.ColumnsOfRow | src/feed/csv_parser.cpp:30-46 | a row has one column more than commas, its columns have none, and joining them gives the row back |
| CsvParser.ColumnsOfJoin | src/feed/csv_parser.cpp:30-46 | columns without commas are recovered from their join |
| CsvParser.U64RoundTrip | src/feed/csv_parser.cpp:48-58 | every unsigned 64-bit value is parsed back from its decimal text |
| CsvParser.I64RoundTrip | src/feed/csv_parser.cpp:48-58 | every signed 64-bit value, the least included, is parsed back from its decimal text |
| CsvParser.U64Exactly | src/feed/csv_parser.cpp:48-58 | an unsigned column is read as n exactly when it is the decimal text of n behind any number of zeros |
| CsvParser.I64Exactly | src/feed/csv_parser.cpp:48-58 | a signed column is read as i exactly when it is the decimal text of i with any leading zeros, a minus being allowed for 0 too; all other texts are rejected |
| CsvParser.BlanksAre | src/feed/csv_parser.cpp:18-28 | exactly spaces, tabs and carriage returns are trimmed |
| CsvParser.ParseRow | src/feed/csv_parser.cpp:157-247 | the event or the first complaint about the row's trimmed columns |
| CsvParser.AcceptedExactly | src/feed/csv_parser.cpp:157-247 | a row is parsed as an event exactly when its trimmed columns spell that event, is rejected exactly when they spell none, and is rejected for its column count whenever it does not have five commas |
| CsvParser.FirstComplaint | src/feed/csv_parser.cpp:157-231 | a rejected row is reported with its line and text and the first complaint that applies |
| CsvParser.FileRowsExactly | src/feed/csv_parser.cpp:116-147 | a file with the expected header has one row for every further line, numbered from 2; with any other header it has one complaint, and an empty file has none |
| CsvParser.RowRoundTrip | src/feed/csv_parser.cpp:157-247 | any event written in the six-column schema with any blanks around its fields is parsed back, side kept for adds only and price and quantity for all but cancels |
| CsvParser.ParsedIsNormal | src/feed/csv_parser.cpp:182-231 | every parsed event is one the schema can express |
| CsvParser.CsvParser.Next | src/feed/csv_parser.cpp:116-147 | delivers the rows of the file one by one: at most the bad header, else every line after it |
| CsvParser.CsvParser.Reset | src/feed/csv_parser.cpp:149-155 | the file will be delivered again from the start |

## Left out

- EwmaDetector.EwmaZScoreDetector.ScoreSample: std::sqrt is a parameter that is the exact root of what is not negative; arithmetic is exact, so nothing is said about rounding of doubles.
- FeatureExtractor.FeatureExtractor.Extract: std::sqrt is a parameter here too; conversion of 64-bit integers to double is exact here; the ages computed must fit a signed 64-bit difference, which is where the original's subtraction is defined.
- QueuedReplay.SameBookExactly: for lists of fewer than 2^64 events, as every vector is.
- Checksum.SnapshotRoundTrip: for level and order counts below 2^64, as every vector's size is.
- SpscProtocol.RaceFree: ordering is by published and acquired counter values; cache lines, padding and instruction timing are not modelled, nor is a size observed by a third thread.
- LimitOrderBook.LimitOrderBook.AddOrder: a std::list is a sequence of entries with identities, an iterator being an identity; allocation failure and node addresses are not modelled.
- PooledLimitOrderBook.PooledLimitOrderBook.constructor: the pool is smaller than npos, which no vector of nodes can reach; a level's order count is a natural number, bounded by the pool.
- ReplayEngine.ReplayEngine.ReplayFile: takes whether the file opened and its lines; the anomaly monitor's list is left out, which does not feed back into the book or the counters.
- CsvParser.ParseRow: std::from_chars is specified by [charconv.from.chars] of ISO/IEC 14882:2020 (decimal digits, a minus for signed values only, range errors), not derived from its implementation.
- `AnomalyMonitor::observe`, `maybe_emit`, thresholds and `summarize_anomaly_reasons`: threshold comparisons on the modelled scores, no state of their own.
- `format_checksum`, `format_top_of_book`, the other `to_string` tables, the command-line tool, file input and the timing code of the benchmarks: formatting and plumbing.
- Hash tables, red-black trees, `reserve` and rehashing: only the finite map they implement.
- Benchmarks other than the direct and queued replay loops, and `std::this_thread::yield`: the queued loops retry at arbitrary times instead.
