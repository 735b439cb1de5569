# Verified model of the market-data library

This project models the parts of the repository whose correctness spans many steps, calls or inputs, and
proves what they promise. Each module follows one component.

- `MpmcQueue` with `MpmcLaws` and `MpmcCalls`, `MpscQueue`, `Disruptor`, `SeqLock` with `SeqLockLaws`, and
  `SpscQueue` are step machines: one atomic load, store, CAS, construction, move or word copy is one step, and any
  interleaving of any number of threads is a run. The invariants are inductive, the queues refine an abstract FIFO,
  every return is tied to the call it answers, and calls left alone come back. `SpscQueue` keeps the real 64-bit
  counters. `MpmcQueue` is also a class whose methods run the same loops over an array of slots.
- `ThreadPool` puts one such queue under every worker; `Dispatch` runs the book update as its handler. Their
  composition is the end-to-end statement: concurrent book building equals sequential replay.
- `BookSpec` is the order book on values, in 64-bit and 32-bit arithmetic; `OrderBook` is the class that
  shifts level arrays in place, proved against it; `BookLaws` has the laws of the specification.
- `DateFormat` has the format tokenizer, parser and renderer and their round trip.
- `OciClient` has the statement handle, the server it talks to, the batch-fetch, single-row and generic select
  drivers over reused buffers, and the chunked insert.
- `Binder` has the two field lookups and the recursive binder in its copying and moving form; `ConfigPath`
  has the property-tree bridge and path resolution on top of the same names and values.
- `Keyed`, `Memory` and `Histogram` are the prefix totals, the two allocators and the latency histogram.
- `Bits`, `Ring`, `Sequences` and `Wrappers` hold the arithmetic and sequence facts the others share.

Run `dafny verify dfyconfig.toml` to check everything.

## Where the code differs from its description

- `include/orderbook/order_book.h:199` says a price that finds no room is aggregated into the last visible
  level. The code aggregates into the first worse level, or, when the price ranks behind every level, writes one
  past the array. `BookLaws.AddConsistentIff` and `BookLaws.AddOutOfBoundsIff` give the exact conditions and
  `BookLaws.FullSideWitness` the inputs.
- `include/orderbook/order_book.h:126-127` reads the order's side and price after erasing its entry. The model
  takes both before the erase.
- `ideas/new/include/binding/oci_mock.h:358` calls the renderer the inverse of the parser. That depends on the
  format; `DateFormat.RoundTrip` says when the year and the hour survive, `DateFormat.TwoDigitYearWitness` and
  `DateFormat.DoubleConversionWitness` show them lost.
- `ideas/new/include/binding/details/oci_client.h:312-315` promises that a NULL fixed-string output of `select`
  is cleared. It is not when the server announces the end together with the only row
  (`OciClient.SelectClearsNullIff`).
- `ideas/new/include/binding/details/oci_client.h:361` and `:585` pass row counts as 32 bits, so a larger batch or
  chunk is cut (`OciClient.LoopEndsIff`, `OciClient.InsertCompleteIff`).
- `include/memory/pool.h:77` adds `aligned + size` in 64 bits; a size close to 2^64 passes the bound check
  (`Memory.ArenaAllocator.Allocate`, `Memory.WrappingRequestWitness`).

## Model

| member | source | states |
|---|---|---|
| `MpmcQueue.StepKeepsInv` | include/lockfree/mpmc_queue.h:54-109 | every atomic step of any thread (loads, sequence read, CAS with spurious failure, construct, move, destroy, publishing stores) keeps the invariant: tail <= head <= tail + N, each position of the current lap in the phase its owner is in, each thread consistent with the slot it holds |
| `MpmcLaws.ExecutionKeepsInv` | include/lockfree/mpmc_queue.h:45-109 | that invariant holds after every schedule of any number of threads, from the constructor's state |
| `MpmcLaws.StepRefinesFifo` | include/lockfree/mpmc_queue.h:54-109 | every step is a step of an atomic FIFO queue of capacity N; the winning CAS is the linearization point, an enqueue needs room, a dequeue takes the oldest element |
| `MpmcLaws.PopsArePrefixOfPushes` | include/lockfree/mpmc_queue.h:76-108 | in every execution the value popped at claim position p is the value pushed at claim position p, so pops in claim order are a prefix of pushes; every completed call returned exactly the value of its position |
| `MpmcLaws.ExecutionExtends` | include/lockfree/mpmc_queue.h:54-109 | claims and takes, once made, never change later in the execution |
| `MpmcLaws.ClaimedOnce` | include/lockfree/mpmc_queue.h:66-68 | in every execution the positions below the head are exactly those some earlier CAS claimed for a push, those below the tail exactly those some earlier CAS claimed for a pop |
| `MpmcLaws.ClaimsAreUnique` | include/lockfree/mpmc_queue.h:66-95 | no position is claimed by two winning CAS steps of the same kind |
| `MpmcLaws.CompletedPopsDiffer` | include/lockfree/mpmc_queue.h:83-109 | two completed pops of one execution have different claim positions: nothing is popped twice |
| `MpmcLaws.OneThreadPerSlot` | include/lockfree/mpmc_queue.h:65-79 | two threads between claim and publish on the same slot are the same thread |
| `MpmcLaws.SequenceNumberIsPhase` | include/lockfree/mpmc_queue.h:79-107 | a slot's sequence number tells exactly whether its position is free, being written, published or still being emptied |
| `MpmcLaws.PushRefusedIff` | include/lockfree/mpmc_queue.h:61-72 | a push gives up exactly when its position is the head and the slot one lap back is not released: the ring is full or that pop is still in flight |
| `MpmcLaws.PopRefusedIff` | include/lockfree/mpmc_queue.h:89-98 | a pop gives up exactly when its position is the tail and nothing is published there: the queue is empty or that push is still in flight |
| `MpmcCalls.PushStep` | include/lockfree/mpmc_queue.h:54-81 | over every step of a thread inside a push, wherever it stands: it returns false exactly on reading the sequence of a blocked head, returns true exactly by its publishing store, claims exactly by a CAS on the head, and tries again only after a spurious failure or when overtaken |
| `MpmcCalls.PopStep` | include/lockfree/mpmc_queue.h:83-109 | the same for a thread inside a pop |
| `MpmcCalls.EveryReturnAnswersItsCall` | include/lockfree/mpmc_queue.h:54-109 | in every execution every return belongs to the call that began it: a success carries that call's value, and a refusal was decided at a moment during the call when the head had no free slot, or the tail no finished element |
| `MpmcCalls.SoloProgress` | include/lockfree/mpmc_queue.h:54-109 | from every reachable state, each step a thread takes alone brings its call one closer to its return, never more than seven away |
| `MpmcCalls.CallLeftAloneReturns` | include/lockfree/mpmc_queue.h:54-109 | so a call left alone returns after exactly those steps; a push refused exactly when it had not claimed and the head is blocked, a pop when the tail is |
| `MpmcLaws.QuiescentLosesNothing` | include/lockfree/mpmc_queue.h:76-107 | with no call in flight every claimed pop has returned its element, every other pushed element is live in its slot, every remaining slot is dead |
| `MpmcQueue.Queue.constructor` | include/lockfree/mpmc_queue.h:45-48 | all slots free, empty contents |
| `MpmcQueue.Queue.TryPush` | include/lockfree/mpmc_queue.h:54-81 | run alone, with any number of spurious CAS failures, a push succeeds exactly when there is room and appends |
| `MpmcQueue.Queue.TryPop` | include/lockfree/mpmc_queue.h:83-109 | run alone, a pop returns and removes the oldest element, or nothing from an empty queue |
| `Ring.SlotIndexIsMask` | include/lockfree/mpmc_queue.h:38-61 | for a power of two, pos & (N - 1), pos mod N and the ring slot used in the machines are the same |
| `Ring.Distinct` | include/lockfree/mpmc_queue.h:38-61 | positions less than a lap apart never share a slot |
| `Bits.MaskIsMod` | include/lockfree/mpmc_queue.h:38-61 | masking with N - 1 is reduction modulo N for every power of two |
| `MpscQueue.ProducerStepKeepsInv` | include/lockfree/mpsc_queue.h:42-67 | every producer step keeps the queue invariant, with a consumer cursor that moves only after the slot is released |
| `MpscQueue.ConsumerStepKeepsInv` | include/lockfree/mpsc_queue.h:69-84 | every step of the single consumer keeps it too |
| `MpscQueue.TakeRefusedIff` | include/lockfree/mpsc_queue.h:72-77 | the consumer finds nothing exactly when the queue is empty or the push at its position is unpublished |
| `MpscQueue.OfferRefusedIff` | include/lockfree/mpsc_queue.h:48-58 | a push is refused exactly when its position is the head and N elements are claimed and unreleased |
| `MpscQueue.OfferStep` | include/lockfree/mpsc_queue.h:42-67 | over every step of a producer inside a push: refused exactly on reading the sequence of the head of a full ring, returning success exactly by its publishing store, trying again only after a spurious failure or when overtaken |
| `MpscQueue.TakeStep` | include/lockfree/mpsc_queue.h:69-84 | over every step of the consumer inside a pop: back empty exactly with nothing published at its position, back with the oldest element exactly by advancing its counter, never at a standstill |
| `MpscQueue.OfferProgress` | include/lockfree/mpsc_queue.h:42-67 | each step a producer takes alone brings its push one closer to its return, at most six away |
| `Disruptor.StepKeepsInv` | include/lockfree/disruptor.h:48-109 | every producer or consumer step keeps the invariant, although the minimum is read cursor by cursor while cursors move |
| `Disruptor.EveryConsumerSeesEveryEvent` | include/lockfree/disruptor.h:64-106 | with all consumers subscribed first, in every execution each consumer has read exactly the first events asked to be published, in order, none skipped or overwritten before it was read, and at most N behind |
| `Disruptor.HeldSlotIntact` | include/lockfree/disruptor.h:91-106 | the slot a consumer holds a reference to keeps its event, and is not the one being written, until the consumer reports it consumed |
| `Disruptor.PublishedIsAsked` | include/lockfree/disruptor.h:86-89 | what is published is what `publish` was called with, in order |
| `Disruptor.WaitEndsOnlyWithRoom` | include/lockfree/disruptor.h:64-69 | when the racing scan lets the producer go on, every consumer has really made room |
| `Disruptor.WaitEndsIff` | include/lockfree/disruptor.h:64-69 | the scan done, the producer goes on to write exactly when every cursor it loaded leaves room for N, and scans again otherwise |
| `Disruptor.ProducerProgress` | include/lockfree/disruptor.h:48-89 | with room at every consumer, each step the producer takes alone brings it one closer to having published: |cursors| + 4 steps from a fresh scan, one scan more from one that loaded stale cursors |
| `Disruptor.PublishReturns` | include/lockfree/disruptor.h:64-89 | so `publish` then returns after exactly those steps, its event published |
| `Disruptor.ProducerWaits` | include/lockfree/disruptor.h:64-69 | without room at some consumer it scans on: a producer left alone publishes exactly when there is room |
| `Disruptor.StalledProducerHasAConsumerToRun` | include/lockfree/disruptor.h:64-69 | whenever a consumer keeps the producer waiting, that consumer can take a step: no reachable state is deadlocked |
| `Disruptor.ConsumerProgress` | include/lockfree/disruptor.h:91-106 | a consumer can step exactly while it has events left, and each step brings it one closer to having none |
| `Disruptor.MinConsumerSeq` | include/lockfree/disruptor.h:48-53 | the scan returns the least cursor, and the largest integer only without consumers |
| `Disruptor.LateSubscriptionSafeIff` | include/lockfree/disruptor.h:81-84 | subscribing between publishes keeps the invariant exactly while at most N events have been published |
| `Disruptor.LateSubscriberReadsLaterEvent` | include/lockfree/disruptor.h:81-84 | otherwise the new subscriber's event 0 is a later event |
| `SeqLock.StepKeepsInv` | include/lockfree/seqlock.h:38-73 | every step of the writer and of any number of readers, words stored and copied one at a time in any order, keeps the invariant; finished writes and history only grow |
| `SeqLockLaws.ReturnedIsCurrent` | include/lockfree/seqlock.h:49-73 | no torn read: a returned value equals, word for word, the payload at the moment of the second load, when no write is storing |
| `SeqLockLaws.AcceptsIffNoWriteStarted` | include/lockfree/seqlock.h:58-72 | an attempt is accepted exactly when its first load was even and no write has started since |
| `SeqLockLaws.ReadsAreWholeAndNeverGoBack` | include/lockfree/seqlock.h:38-73 | in every execution any returned value is the initial one or the whole argument of one write, the last finished by then, and later returns by any reader never come from an earlier write |
| `SeqLockLaws.UndisturbedAttemptReturns` | include/lockfree/seqlock.h:47-60 | an attempt during which the writer does not move succeeds: readers retry only because of writes |
| `SeqLockLaws.ReadEndsIff` | include/lockfree/seqlock.h:47-73 | over every step of a reader: `read` comes back only with a value and tries again exactly when a write disturbed the attempt; `try_read` comes back without one exactly when its first load met a write or a write started since |
| `SeqLockLaws.EveryReadIsAnswered` | include/lockfree/seqlock.h:47-73 | in every execution each call that comes back was begun as a `read` and has a value, or as a `try_read` and has a value or was disturbed |
| `SeqLockLaws.AttemptProgress` | include/lockfree/seqlock.h:47-73 | every step of a reader brings its attempt one closer to its second load, whatever the writer does |
| `SeqLockLaws.WriterNeverWaits` | include/lockfree/seqlock.h:38-45 | inside a write there is always a step to take, each brings the write one closer to its end, and then the counter is even and the whole value in place |
| `SpscQueue.MinusOfWrapped` | include/lockfree/spsc_queue.h:46-73 | unsigned subtraction of wrapped counters is the true difference modulo 2^64, and exact for differences the ring can have |
| `SpscQueue.WrappingKeepsIndex` | include/lockfree/spsc_queue.h:47-59 | masking a wrapped counter selects the slot of the true, unbounded position, because N divides 2^64 |
| `SpscQueue.StepKeepsInv` | include/lockfree/spsc_queue.h:40-64 | every step with wrapping counters and stale loads keeps the ring consistent with unbounded counts |
| `SpscQueue.StepRefinesFifo` | include/lockfree/spsc_queue.h:40-64 | every step, across counter overflow, is a step of a bounded FIFO of capacity N |
| `SpscQueue.PushRefusedIffFull` | include/lockfree/spsc_queue.h:44-49 | a push is refused exactly when N elements were inside at its load of the consumer counter; otherwise it constructs into a dead slot |
| `SpscQueue.PopRefusedIffEmpty` | include/lockfree/spsc_queue.h:56-60 | a pop is refused exactly when nothing was inside at its load of the producer counter; otherwise it finds a live element |
| `SpscQueue.PushStep` | include/lockfree/spsc_queue.h:40-51 | over every step of a push: it comes back refused exactly after a load that found N elements inside, or having enqueued its value, and moves one stage on otherwise |
| `SpscQueue.PopStep` | include/lockfree/spsc_queue.h:53-64 | over every step of a pop: refused exactly after a load that found nothing inside, or having taken the oldest element |
| `SpscQueue.EveryPushIsAnswered` | include/lockfree/spsc_queue.h:40-51 | in every execution a push that comes back enqueued the value it was called with, or N elements were inside at a moment during the call |
| `SpscQueue.EveryPopIsAnswered` | include/lockfree/spsc_queue.h:53-64 | in every execution a pop that comes back took the oldest element, or nothing was inside at a moment during the call |
| `SpscQueue.PopsArePrefixOfPushes` | include/lockfree/spsc_queue.h:40-64 | in every run pops are a prefix of pushes at most N behind, and the wrapped difference is their distance |
| `SpscQueue.SizeFromEitherSide` | include/lockfree/spsc_queue.h:70-73 | size() called by the producer or the consumer is a true occupancy between 0 and N, whichever counter is loaded first |
| `SpscQueue.SizeProducerFirst` | include/lockfree/spsc_queue.h:70-73 | from a third thread loading the producer counter first, the result stays within N exactly when the consumer has not overtaken that load; otherwise it is 2^64 minus the overtaking |
| `SpscQueue.SizeConsumerFirst` | include/lockfree/spsc_queue.h:70-73 | loading the consumer counter first, it never wraps but also counts what was popped in between |
| `ThreadPool.Target` | include/threadpool/threadpool.h:120-153 | every submit mode routes to an existing worker |
| `ThreadPool.WorkerForKey` | include/threadpool/threadpool.h:131-134 | a key routes to an existing worker |
| `ThreadPool.TargetIs` | include/threadpool/threadpool.h:120-153 | the one worker each mode reaches: the key's hash modulo all workers, the hash modulo the group's size within the group's own block, the worker named, or the next in turn |
| `ThreadPool.TurnsGoRound` | include/threadpool/threadpool.h:120-125 | in every run, of any N consecutive submissions by round robin no two reach the same of the N workers |
| `ThreadPool.EverySubmissionIsAnswered` | include/threadpool/threadpool.h:120-153 | in every run a submission that ends was begun by a submit of that task and key for the worker its mode reaches, and ends accepted by its publishing store or refused at a moment when that worker's ring is full, never otherwise |
| `ThreadPool.WorkerServes` | include/threadpool/threadpool.h:194-209 | running or draining, a worker whose oldest element is published is never more than eight steps of its own from having handled the next element of its ring |
| `ThreadPool.PoolStepKeepsInv` | include/threadpool/threadpool.h:105-153 | every step of submitters, workers, stop requests and the drain keeps the pool invariant |
| `ThreadPool.PoolRunKeepsInv` | include/threadpool/threadpool.h:105-209 | it holds in every run in which producers have finished before stop |
| `ThreadPool.HandledInOrder` | include/threadpool/threadpool.h:194-209 | at every moment each worker has handled, of each submitter, a prefix of what was accepted for it, in submission order, and only tasks routed to it |
| `ThreadPool.DrainHandlesExactlyAccepted` | include/threadpool/threadpool.h:114-118 | once the workers have exited, each accepted task was handled exactly once, by the worker it was routed to, in submission order |
| `ThreadPool.StoppedWorkerProgress` | include/threadpool/threadpool.h:194-209 | every step of a worker asked to stop lowers the number of steps it has left by one, and it has left its loop exactly when none is left |
| `ThreadPool.OthersKeepStepsLeft` | include/threadpool/threadpool.h:114-118 | no step of anyone else changes that number |
| `ThreadPool.StoppedWorkerExits` | include/threadpool/threadpool.h:200-209 | so a stopped worker exits after exactly that many steps of its own, whatever is still queued |
| `ThreadPool.DrainUnderEverySchedule` | include/threadpool/threadpool.h:114-118 | in every run, however all threads interleave, a worker asked to stop has left its loop exactly when it has taken the steps it had left at that moment |
| `ThreadPool.StopIsFinal` | include/threadpool/threadpool.h:114-118 | in every run, from a stop on every worker can be asked to stop, and nothing more is submitted |
| `ThreadPool.StopRequestStays` | include/threadpool/threadpool.h:114-118 | and a worker asked to stop stays asked |
| `ThreadPool.KeyIsSticky` | include/threadpool/threadpool.h:136-149 | in every run all tasks of a key submitted by affinity go to one worker |
| `ThreadPool.KeyHandledInSubmissionOrder` | include/threadpool/threadpool.h:136-149 | after the drain the key's worker has handled exactly its accepted tasks in submission order, and no other worker any of them |
| `ThreadPool.ContextIsFold` | include/threadpool/threadpool.h:194-209 | a worker's private context is the fold of its handler over the tasks it handled |
| `OrderBook.FindOrInsertLevel` | include/orderbook/order_book.h:183-200 | the array after the search and shift, and the index returned, at capacity too |
| `OrderBook.EraseLevel` | include/orderbook/order_book.h:202-211 | the level is removed and those behind it move up |
| `OrderBook.OrderBook.constructor` | include/orderbook/order_book.h:78-80 | an empty book |
| `OrderBook.OrderBook.OnAdd` | include/orderbook/order_book.h:84-94 | in place, the book becomes the specified one; a full order table refuses and leaves it untouched |
| `OrderBook.OrderBook.OnCancel` | include/orderbook/order_book.h:96-102 | in place, the order and its share of its level leave, the level with its last order |
| `OrderBook.OrderBook.OnModify` | include/orderbook/order_book.h:104-113 | in place, the order and its level take the new quantity, in 64-bit arithmetic |
| `OrderBook.OrderBook.OnExecute` | include/orderbook/order_book.h:115-130 | in place, a fill reduces or removes the order and its level |
| `OrderBook.OrderBook.TakeSnapshot` | include/orderbook/order_book.h:146-155 | the fixed-depth snapshot of the specified book |
| `BookLaws.CancelKeepsConsistent` | include/orderbook/order_book.h:96-102 | a cancel of any id keeps both sides strictly sorted, without duplicate or empty levels, each level the wrapped sum and the count of the orders resting at its price |
| `BookLaws.ModifyKeepsConsistent` | include/orderbook/order_book.h:104-113 | so does every modify |
| `BookLaws.ExecuteKeepsConsistent` | include/orderbook/order_book.h:115-130 | so does every execution, an over-execution included, as quantities wrap alike in order and level |
| `BookLaws.AddConsistentIff` | include/orderbook/order_book.h:84-94 | an accepted in-bounds add keeps the book consistent exactly when the id is fresh and the price has a level or the side has room |
| `BookLaws.AddOutOfBoundsIff` | include/orderbook/order_book.h:183-200 | the add writes past the array exactly when the side is full and the price ranks behind every level |
| `BookLaws.StepRefinesPlain` | include/orderbook/order_book.h:84-130 | every proper operation updates the order table as a plain map would, keeps the aggregate, and advances the sequence exactly when it takes effect |
| `BookLaws.RunRefinesPlain` | include/orderbook/order_book.h:84-130 | from any consistent book, every proper run leaves the plain map's orders and their sorted aggregate |
| `BookLaws.EmptyIsConsistent` | include/orderbook/order_book.h:78-80 | the book the constructor makes is the aggregate of no orders |
| `BookLaws.BookIsPlainAggregate` | include/orderbook/order_book.h:78-130 | after every proper run from the constructor's empty book the orders are those of a plain map that started empty and the levels their sorted aggregate |
| `BookLaws.FullSideWitness` | include/orderbook/order_book.h:84-94 | the excluded adds at real inputs: with one level and a bid at 100, a bid at 101 and the same id again break the aggregate, a bid at 99 goes past the array |
| `BookSpec.SideDetermined` | include/orderbook/order_book.h:182-200 | that aggregate is unique: two sorted sides that fit the same orders are equal |
| `BookLaws.CancelUndoesAdd` | include/orderbook/order_book.h:84-102 | cancelling an order just added restores every level, whatever the insertion shifted |
| `BookLaws.SnapshotIsBest` | include/orderbook/order_book.h:143-155 | every resting bid is in a shown bid level or lower than all of a full depth, every ask in a shown ask level or higher |
| `BookLaws.SnapshotIsAggregate` | include/orderbook/order_book.h:143-155 | each shown level is the total and the number of its own side's orders at its price, bids highest first, asks lowest first, the rest blank; symbol and sequence are the book's |
| `BookLaws.FullFillIsCancel` | include/orderbook/order_book.h:96-130 | executing all that rests leaves the book a cancel would |
| `BookLaws.PartialFillIsModify` | include/orderbook/order_book.h:104-130 | executing less leaves the book that modifying to the remainder would |
| `BookLaws.FillsAddUp` | include/orderbook/order_book.h:115-130 | two fills in a row leave the levels and orders of one fill of both quantities |
| `BookLaws.LastModifyCounts` | include/orderbook/order_book.h:104-113 | of two modifications in a row only the last shows |
| `Dispatch.MakeTask` | apps/md_dispatch/main.cpp:112-121 | the task carries the symbol, the sequence and at most 64 bytes of the payload, unchanged, zeros behind them |
| `Dispatch.DecodeIffEncoded` | apps/md_dispatch/main.cpp:52-93 | for every payload and every call: the payload is taken for the call exactly when it begins with the call's encoding ('A', 'X' or 'E', the id, then side byte, signed price and quantity, or the quantity, little-endian), any side byte but 0 meaning ask |
| `Dispatch.OtherKindsIgnored` | apps/md_dispatch/main.cpp:73-93 | a payload asks for nothing exactly when its first byte is none of the three |
| `Dispatch.EncodingSurvives` | apps/md_dispatch/main.cpp:52-121 | a call encoded, received as a packet and decoded is the same call |
| `Dispatch.PacketDroppedOnlyWhenFull` | apps/md_dispatch/main.cpp:107-126 | in every run a packet ends as an accepted task of its symbol's worker, or is dropped at a moment when that worker's queue holds 4096 tasks |
| `Dispatch.ProcessMarketData` | apps/md_dispatch/main.cpp:55-105 | a message changes the book of its own symbol as specified and publishes the new top of book in the symbol's slot of the shared table; a symbol without a book changes nothing |
| `Dispatch.ProcessIsPerSymbol` | apps/md_dispatch/main.cpp:55-99 | processing a stream leaves each symbol's book as processing only that symbol's messages would |
| `Dispatch.SeedBooks` | apps/md_dispatch/main.cpp:153-165 | each symbol's book is created with the worker its key routes to, and with no other |
| `Dispatch.BookIsReplayOfPrefix` | apps/md_dispatch/main.cpp:107-165 | in every reachable state of receiver and workers the book of a symbol lives with the routed worker only, and is the sequential replay of a prefix of its accepted messages |
| `Dispatch.DrainedBookIsSequentialReplay` | apps/md_dispatch/main.cpp:107-165 | once the queues are drained it is the sequential replay of all of them, in arrival order |
| `Dispatch.DrainedBookIsPlainAggregate` | apps/md_dispatch/main.cpp:55-165 | if a symbol's accepted messages decode to a proper run, its drained book is intact, its levels are the sorted aggregate of its orders, and those are a plain map's replay of the messages |
| `Dispatch.DrainedBookFollowsTheWire` | apps/md_dispatch/main.cpp:52-165 | if the payloads accepted for a symbol are the encodings of a proper run of calls, its drained book holds the orders a plain map has after those calls, in intact sorted levels |
| `Dispatch.SlotHasOneWriter` | apps/md_dispatch/main.cpp:101-104 | over a whole run only one worker, for one symbol, ever publishes in a slot of the shared table, as its sequence lock demands |
| `DateFormat.Tokenize` | ideas/new/include/binding/oci_mock.h:211-242 | the loop yields the format's elements |
| `DateFormat.ElementIsLongestMatch` | ideas/new/include/binding/oci_mock.h:225-240 | no keyword occurring at a position is longer than the element taken there, which has the meaning of the keyword of its length; a literal is taken only where no keyword occurs |
| `DateFormat.KeywordMatchesIff` | ideas/new/include/binding/oci_mock.h:211-223 | a keyword is found exactly where it is spelled out, in any mixture of cases |
| `DateFormat.RRYearIsUniqueInWindow` | ideas/new/include/binding/oci_mock.h:254-260 | the RR rule gives the one year congruent to rr modulo 100 in [100*((cur+50)/100)-50, 100*((cur+50)/100)+49] |
| `DateFormat.ReadDigits` | ideas/new/include/binding/oci_mock.h:275-286 | exactly `width` digits at the position and their value, or nothing |
| `DateFormat.Parse` | ideas/new/include/binding/oci_mock.h:272-350 | the loop computes the element-by-element parse with its final 12-hour conversion, and rejects on mismatch, short or leftover input |
| `DateFormat.AcceptedTextHasFormatWidth` | ideas/new/include/binding/oci_mock.h:267-350 | an accepted text has exactly the total width of the format's elements |
| `DateFormat.ElementReads` | ideas/new/include/binding/oci_mock.h:288-342 | for every text and position: an element is taken exactly when the text there fits it (digits, one of the twelve month abbreviations, AM or PM, the literal itself), moves past it, and sets its own field to what the text says and no other |
| `DateFormat.AcceptedIff` | ideas/new/include/binding/oci_mock.h:267-350 | a format accepts exactly the texts whose pieces fit its elements one after the other with nothing left over |
| `DateFormat.WordReadIff` | ideas/new/include/binding/oci_mock.h:304-334 | months and AM/PM are read in any mixture of cases |
| `DateFormat.WordsShown` | ideas/new/include/binding/oci_mock.h:371-383 | a month is shown by the abbreviation that reads as it, the half of the day as AM before noon and PM after |
| `DateFormat.BadMonthIsNotRead` | ideas/new/include/binding/oci_mock.h:371-377 | a month outside the year is shown as text no format reads back |
| `DateFormat.ZeroPad` | ideas/new/include/binding/oci_mock.h:352-356 | the padded decimal |
| `DateFormat.PaddedIsFixedWidth` | ideas/new/include/binding/oci_mock.h:352-356 | a number that fits its width is shown with exactly that many digits, which read back as it |
| `DateFormat.PaddedOutOfRange` | ideas/new/include/binding/oci_mock.h:352-356 | a number is shown in its width exactly when it fits, otherwise in full; a negative one with its sign before its digits |
| `DateFormat.Render` | ideas/new/include/binding/oci_mock.h:358-386 | the loop concatenates the elements' renderings |
| `DateFormat.ElementRoundTrip` | ideas/new/include/binding/oci_mock.h:288-384 | parsing one element where it was rendered stores what it shows and moves past it |
| `DateFormat.RoundTrip` | ideas/new/include/binding/oci_mock.h:267-386 | for every format and in-range date-time, parsing the rendering succeeds and consumes it; month, day, minute and second come back when mentioned; year and hour come back exactly under stated conditions on the last year and hour element; other fields keep their defaults |
| `DateFormat.WellPairedFormatRoundTrips` | ideas/new/include/binding/oci_mock.h:267-386 | with 24-hour alone, 12-hour with AM/PM, or no hour, and years the elements can express, every field the format mentions comes back |
| `DateFormat.TwoDigitYearWitness` | ideas/new/include/binding/oci_mock.h:291 | 1999 written as YY is read as 2099 |
| `DateFormat.DoubleConversionWitness` | ideas/new/include/binding/oci_mock.h:344-348 | 13 o'clock written as HH24AM is read as hour 25 |
| `OciClient.CallAcceptedIff` | ideas/new/include/binding/oci_statement.h:92-417 | the protocol over every history of calls none of which raised: prepare only first; an input bind or execute is refused exactly while the last report is the end of the fetch; fetch and describe need a report; the prefetch setting must precede any report; an output bind is never refused again |
| `OciClient.Statement.Execute` | ideas/new/include/binding/oci_statement.h:334-349 | raises exactly outside Prepared and Executed; otherwise takes over the reported state, on failure too |
| `OciClient.Statement.Fetch` | ideas/new/include/binding/oci_statement.h:365-376 | raises exactly outside Executed and EndOfFetch; otherwise the next rows land in the buffers |
| `OciClient.Server.StmtFetch` | ideas/new/include/binding/oci_mock.h:631-648 | min(nrows, remaining) rows are transferred in order, NULLs leaving the buffer alone, the end announced with the last rows or with an empty batch |
| `OciClient.Buffers.ApplyRow` | ideas/new/include/binding/details/oci_client.h:223-254 | each cell becomes what its indicator and staging slot say |
| `OciClient.FetchBatch` | ideas/new/include/binding/details/oci_client.h:361-371 | one round delivers the next rows of the result set, from reused buffers |
| `OciClient.FetchLoop` | ideas/new/include/binding/details/oci_client.h:360-378 | after any number of rounds, for every batch size, the batches concatenate to the delivered rows in order, and the loop has ended with the end of the result set or the first failure, or is still running; never a state error from a fetchable state |
| `OciClient.SelectRows` | ideas/new/include/binding/details/oci_client.h:333-382 | a state error exactly when a successful execute leaves the state Initialized (never when it reports end-of-fetch early); otherwise the rows of the result set, the failure, or a loop still running |
| `OciClient.SelectGeneric` | ideas/new/include/binding/details/oci_client.h:447-507 | the same for the struct-free driver, which refuses LOB columns before fetching |
| `OciClient.LoopDeliversAll` | ideas/new/include/binding/details/oci_client.h:360-378 | without failures every row is delivered once, for every batch size, and the loop ends with no-data |
| `OciClient.LoopStopsAtBatchBoundary` | ideas/new/include/binding/details/oci_client.h:360-378 | with a failure, what was delivered before is everything or a whole number of batches |
| `OciClient.LoopEndsInTime` | ideas/new/include/binding/details/oci_client.h:360-378 | with at least one row per fetch the loop ends within one round more than there are rows |
| `OciClient.ZeroBatchNeverEnds` | ideas/new/include/binding/details/oci_client.h:360-361 | with a batch size cut to 0 rows and rows left, the cursor stands still and the loop goes on after any number of answered calls |
| `OciClient.LoopEndsIff` | ideas/new/include/binding/details/oci_client.h:360-361 | against a faultless server the loop ends exactly when the batch size keeps a row in 32 bits or no row is left |
| `OciClient.CellIsItsOwnRows` | ideas/new/include/binding/details/oci_client.h:170-253 | an optional, fixed-string or LOB cell, and a non-NULL plain cell, is determined by its own row, never by the reused buffer |
| `OciClient.PlainNullShowsEarlierRow` | ideas/new/include/binding/details/oci_client.h:206-208 | a NULL in a plain column shows the row one batch earlier instead |
| `OciClient.Select` | ideas/new/include/binding/details/oci_client.h:544-567 | one row by position, no state error; every variable as the cell specification says |
| `OciClient.SelectLeavesOrSets` | ideas/new/include/binding/details/oci_client.h:553-566 | zero rows or an error leave the variables alone, a non-NULL value overwrites its variable |
| `OciClient.SelectClearsNullIff` | ideas/new/include/binding/details/oci_client.h:562-565 | a NULL fixed-string output is cleared exactly unless a single-row result announces its end with the row |
| `OciClient.InsertRows` | ideas/new/include/binding/details/oci_client.h:569-589 | for every chunk size, the server has received exactly the rows the chunk specification sends in that many rounds, and the call has ended, or is still running, as specified |
| `OciClient.InsertSendsWholeChunks` | ideas/new/include/binding/details/oci_client.h:581-588 | whatever fails, the server has received the rows of a whole number of chunks, each once and in order; success exactly when those are all rows |
| `OciClient.InsertStateErrorIff` | ideas/new/include/binding/details/oci_client.h:581-588 | an insert raises a state error exactly when the server reports end-of-fetch after a chunk that is not the last |
| `OciClient.InsertCompleteIff` | ideas/new/include/binding/details/oci_client.h:583-585 | against a faultless server every row arrives exactly when the chunk counts fit in 32 bits |
| `OciClient.InsertEndsInTime` | ideas/new/include/binding/details/oci_client.h:582-587 | with at least one row per chunk the insert ends within as many rounds as there are rows |
| `OciClient.InsertEndsIff` | ideas/new/include/binding/details/oci_client.h:582-587 | against a faultless server the insert ends exactly when chunks hold a row or there is none to insert |
| `Binder.EqualNamesHashEqual` | ideas/binding/include/binding/config_bind.h:60-88 | names equal up to case hash equal |
| `Binder.NamesMatchIff` | ideas/binding/include/binding/config_bind.h:47-60 | two names match exactly when they agree character by character but for the case of ASCII letters |
| `Binder.HashedIsLinear` | ideas/binding/include/binding/config_bind.h:128-239 | the hashed index and the linear scan give the same matches in the same order for every list and name |
| `Binder.LinearFieldScanner.All` | ideas/binding/include/binding/config_bind.h:226-232 | all matching positions in order |
| `Binder.LinearFieldScanner.SingleMatch` | ideas/binding/include/binding/config_bind.h:212-224 | the only match, none, or the duplicate error |
| `Binder.FieldIndex.constructor` | ideas/binding/include/binding/config_bind.h:134-144 | builds the index of the whole list |
| `Binder.FieldIndex.All` | ideas/binding/include/binding/config_bind.h:171-174 | the same result as the scan |
| `Binder.FieldIndex.SingleMatch` | ideas/binding/include/binding/config_bind.h:153-162 | the same result as the scan, the duplicate error included |
| `Binder.ScanFindsAll` | ideas/binding/include/binding/config_bind.h:226-232 | no matching entry is missed |
| `Binder.VectorGrowsByEntry` | ideas/binding/include/binding/config_bind.h:495-512 | a vector binds to its entries' own bindings in list order: one more matching entry adds what it binds to alone, from a value-initialized element, after all the others, or its error; any other entry changes nothing; no entries make it empty |
| `Binder.OptionalPresent` | ideas/binding/include/binding/config_bind.h:474-493 | an optional member that has an entry holds what its inner type binds to, from a value-initialized one, or fails alike |
| `Binder.ScalarPresent` | ideas/binding/include/binding/config_bind.h:387-394 | a leaf or struct member with exactly one entry holds its converted text or its bound fields, and rejects the other shape and a text that does not convert |
| `Binder.ScalarMissing` | ideas/binding/include/binding/config_bind.h:514-521 | without an entry a required one is an error |
| `Binder.ScalarAmbiguous` | ideas/binding/include/binding/config_bind.h:212-224 | with two entries it is an error |
| `Binder.StructBindsMembers` | ideas/binding/include/binding/config_bind.h:526-581 | a struct binds to its members' bindings in declaration order or to the error of the first that fails; strict mode first reports the first entry no member is named like |
| `Binder.ThresholdIsInvisible` | ideas/binding/include/binding/config_bind.h:566-581 | binding gives the same outcome, errors included, on either side of the threshold, for every schema, self-referential ones included |
| `Binder.StrictOnlyRejects` | ideas/binding/include/binding/config_bind.h:541-570 | what strict mode accepts has only known names and binds to the same value leniently |
| `Binder.AbsentOptionalUntouched` | ideas/binding/include/binding/config_bind.h:474-493 | an optional member no entry is named like keeps what the caller had in it |
| `Binder.KeyOrderIrrelevant` | ideas/binding/include/binding/config_bind.h:18-30 | lists with the same values under every name bind alike, whatever the order and case of their keys |
| `Binder.MovingBindsTheSame` | ideas/binding/include/binding/config_bind.h:583-601 | the moving overload gives the same outcome as the const one when no struct has two names equal up to case |
| `Binder.MovingDiffersOnClashingNames` | ideas/binding/include/binding/config_bind.h:583-601 | with two such names it need not: the second member reads what the first left behind |
| `Binder.ClashingNamesLoseText` | ideas/binding/include/binding/config_bind.h:583-601 | for every schema with two such leaf members, the first of a moved type, and every list the copying overload binds: if the second converts the shared text otherwise than a moved-from one, the moving overload's outcome is another |
| `ConfigPath.FindPtreeChild` | ideas/binding/include/binding/ptree_bridge.h:98-105 | the visitor finds the first case-insensitive match among the visible fields, attributes and array elements included |
| `ConfigPath.VisibleInOrder` | ideas/binding/include/binding/ptree_bridge.h:53-93 | children show one after the other, in document order |
| `ConfigPath.ChildShows` | ideas/binding/include/binding/ptree_bridge.h:32-93 | what one child shows as: attributes by their own names, an array as its elements under the array's key, anything else as itself |
| `ConfigPath.AttributeIsFound` | ideas/binding/include/binding/ptree_bridge.h:56-105 | an attribute is found under its name unless something earlier shows that name |
| `ConfigPath.ArrayElementIsFound` | ideas/binding/include/binding/ptree_bridge.h:68-105 | under an array's key its first element is found |
| `ConfigPath.Resolve` | ideas/binding/src/config_parser.cpp:129-160 | the loop walks the path segment by segment, falling back to attached documents only at the root |
| `ConfigPath.ResolveCommutesWithConversion` | ideas/binding/src/config_parser.cpp:129-168 | resolving a path and converting equals converting the tree and following first matches, up to the node's own text entry, for every path without the text key |
| `ConfigPath.LevelAgrees` | ideas/binding/include/binding/ptree_bridge.h:107-149 | at one level the field list holds under every name but the text key exactly what the live tree has |
| `ConfigPath.FieldsAreVisible` | ideas/binding/include/binding/ptree_bridge.h:111-149 | the field list is the level's visible entries one by one, repeated ones included: a childless entry as its trimmed text, any other as its own list with its own text last |
| `ConfigPath.TrimIs` | ideas/binding/include/binding/config_field.h:34-39 | trimming takes white space off both ends and nothing else, and leaves none there |
| `ConfigPath.TrimUndoesPadding` | ideas/binding/include/binding/config_field.h:34-39 | padding a text with white space and trimming gives the text back |
| `ConfigPath.TextSegmentOnlyInFieldList` | ideas/binding/include/binding/ptree_bridge.h:132-142 | the text key is found in the field list and not in the live tree |
| `ConfigPath.ResolveComposes` | ideas/binding/src/config_parser.cpp:129-160 | resolving p.q is resolving p and then q, for every non-empty p that does not end in a dot |
| `ConfigPath.TrailingDotIgnored` | ideas/binding/src/config_parser.cpp:133-156 | a single trailing dot is ignored |
| `ConfigPath.AttachmentNeverShadows` | ideas/binding/src/config_parser.cpp:139-151 | an attached document never changes what a path resolves to when the primary has its first segment |
| `ConfigPath.AttachmentIsFound` | ideas/binding/src/config_parser.cpp:139-151 | for a first segment the primary does not have, the first attached document of the name is taken and the rest followed below it; without one nothing is found |
| `Keyed.EquivalentIffPrefix` | ideas/aggregate/keyed.h:42-50 | a probe is equivalent to a key under the comparator exactly when it is a prefix of it |
| `Keyed.LessIffFirstDifference` | ideas/aggregate/keyed.h:42-50 | the order is decided at the first element where two keys differ, the missing value before any number |
| `Keyed.PrefixIsRange` | ideas/aggregate/keyed.h:63-69 | the keys with a prefix are exactly those between its two bounds |
| `Keyed.PutAddsToSum` | ideas/aggregate/keyed.h:59 | an addition changes the sum of exactly the prefixes of its key |
| `Keyed.LeavesAreSums` | ideas/aggregate/keyed.h:57-61 | each leaf carries the sum of the additions under its key |
| `Keyed.KeyedTotals.Add` | ideas/aggregate/keyed.h:59 | records the addition |
| `Keyed.KeyedTotals.Subtotal` | ideas/aggregate/keyed.h:63-69 | the range sum is the sum of all additions whose key starts with the prefix |
| `Keyed.KeyedTotals.Rollup` | ideas/aggregate/keyed.h:72-78 | the map of the keys' leading elements |
| `Keyed.RollupAgreesWithSubtotals` | ideas/aggregate/keyed.h:72-78 | the roll-up has, in order, one entry for each occurring prefix and no other, carrying its subtotal |
| `Keyed.TotalIgnoresExtractor` | ideas/aggregate/keyed.h:23-28 | the grand total is the same for any two key extractors |
| `Memory.RunKeepsPartition` | include/memory/pool.h:36-50 | over every run of allocations and frees the free list has no repetition, is disjoint from the live slots, and together they number N |
| `Memory.PartitionCovers` | include/memory/pool.h:36-50 | every slot is either free or live |
| `Memory.PoolAllocator.constructor` | include/memory/pool.h:26-31 | all slots chained free |
| `Memory.PoolAllocator.Allocate` | include/memory/pool.h:36-42 | the head of the free list, or null exactly when it is empty; the counter is its length |
| `Memory.PoolAllocator.Store` | include/memory/pool.h:16-19 | what an owner writes over the link in its slot never reaches the free list |
| `Memory.PoolAllocator.Deallocate` | include/memory/pool.h:44-50 | the slot becomes the head of the free list, other slots untouched |
| `Memory.HighMaskRoundsDown` | include/memory/pool.h:76 | masking with the complement of align - 1 rounds down to a multiple of align |
| `Memory.AlignUpIsLeastMultiple` | include/memory/pool.h:76 | the mask form is the least multiple of the alignment not below the offset |
| `Memory.ArenaAllocator.Allocate` | include/memory/pool.h:73-80 | a returned block is aligned, inside the buffer and disjoint from all earlier ones exactly when aligned + size does not wrap to a small value; a refusal changes nothing |
| `Memory.WrappingRequestWitness` | include/memory/pool.h:76-78 | with 16 of 4096 bytes used, a request for 2^64 - 16 more passes the bound check and does not fit |
| `Memory.ArenaAllocator.Reset` | include/memory/pool.h:91 | starts over |
| `Memory.AddressAlignedIff` | include/memory/pool.h:69-79 | the address, not only the offset, is aligned exactly when the buffer is |
| `Histogram.BucketFor` | include/perfmeasure/histogram.h:51-60 | the bucket of a sample is the position of its highest bit |
| `Histogram.LatencyHistogram.Record` | include/perfmeasure/histogram.h:15-20 | counts, total, minimum and maximum describe the recorded samples |
| `Histogram.LatencyHistogram.Percentile` | include/perfmeasure/histogram.h:33-42 | the returned power of two P and the true sample v >= 1 of that rank satisfy P <= v < 2P; P is 1 for v = 0; ranks beyond the count give the last bucket |
| `Histogram.OrderStatisticExists` | include/perfmeasure/histogram.h:33-42 | every rank below the count has its sample |
| `Histogram.OrderStatisticIsUnique` | include/perfmeasure/histogram.h:33-42 | and only one |
| `Histogram.BucketsSumToTotal` | include/perfmeasure/histogram.h:15-20 | the buckets always add up to the number of samples |

## Left out

- Hardware memory ordering, fences and cache-line placement: every atomic access is one sequentially consistent step.
- Counter wrap-around outside `SpscQueue`: the other machines count with unbounded naturals.
- MpmcLaws.StepRefinesFifo: the concurrent objects are machines over values, so it does not model aliasing; only `MpmcQueue.Queue` is also an object, and its methods run alone.
- MpmcCalls.CallLeftAloneReturns: nothing is said about fairness; a call that keeps losing its CAS can retry without end, as in the source.
- Disruptor.EveryConsumerSeesEveryEvent: all consumers subscribe before the first publish, as the class intends; `Disruptor.LateSubscriptionSafeIff` covers the other case.
- ThreadPool.DrainHandlesExactlyAccepted: a submission still running when `stop` is called, or made after it, is excluded; its task can stay in a queue.
- Dispatch.ProcessMarketData: it is defined up to the first add that writes past its array; from there the run-level model treats the book as corrupt. The shared table is an array written one slot at a time, its locks are those of `SeqLock`.
- BookLaws.RunRefinesPlain: an id added again while it rests, and an add with no room for its price, are excluded; `BookLaws.AddConsistentIff` shows that they break the aggregate.
- DateFormat.RoundTrip: the current year is a parameter; characters are folded as in the C locale.
- DateFormat.AcceptedTextHasFormatWidth: the fields written before a rejected text is rejected are not modelled.
- OciClient.FetchLoop: column names are already resolved to positions, values are strings, and OCI handles, LOB locators, error texts and query logs are replaced by a server that may fail in any call.
- OciClient.SelectRows: the loop need not end, so it is looked at for a given number of rounds; a batch of 0 structs is excluded, since the source takes the address of the first.
- OciClient.InsertRows: likewise looked at for a given number of rounds.
- Binder.ThresholdIsInvisible: leaf parsing is an arbitrary function of the leaf, and the two duplicate-name messages count as one error.
- Binder.FieldIndex.constructor: the table does not rehash; any number of buckets is allowed instead.
- Binder.MovingBindsTheSame: the nesting bound of the moving form is the depth of its list, so it cuts nothing; what is left in the moved-from list is not otherwise described.
- Binding of one already resolved node outside a struct, which would only add easy members.
- ConfigPath.Resolve: only property trees; the TOML bridge is not part of this model, nor are the file parsers.
- Keyed.KeyedTotals.Add: the standard map is a sorted sequence, and measures are integers.
- Memory.PoolAllocator.Deallocate: callers free only slots they hold, as the class assumes; alignment and size of the element type are not modelled.
- Histogram.LatencyHistogram.Percentile: the target rank is a natural number, so the floating-point product is not modelled; the counters do not wrap.
- Queue destructors, `empty` and `capacity` accessors, move-only element types.
- Sockets, shared memory, CPU pinning, signals, logging, the application loop, clocks and TSC calibration.
- Mapping of the shared table into memory, `FixedString`, endian helpers, the logger registry, demos and benchmarks: they would only add easy members.
- The older client and mock under `ideas/binding`, near-duplicates of those under `ideas/new`.
