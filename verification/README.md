# Verified model of the order book, the sharded exchange and the FIX codec

The project models the three parts of the repository that carry state and proves what they keep over whole runs.

**The limit order book.** `Orders` has orders, packed identifiers and the sequencer; `OrderQueues` the price-sorted
queue with its identifier index, as functions on values and as the class `PriorityQueueAdapter`; `PopNarrowing` the pop
exactly as coded, through an `int`; `Matching` the matching loop and its closed form; `OrderBooks` the operations of the
book, runs of commands, the invariant and the flags; `Limits` at which prices orders trade; `Lookups` which orders are
found; `CodedBooks` the same operations with the pop as coded, and when they are the intended ones; `TimePriority` in
which order the resting orders at one price trade; `Ledger` volume accounting over runs; `NonInterference` that an order
which never trades leaves no trace; `Engine` the class `OrderBook`, whose methods are proved against these functions.
Everything holds for any comparator that puts better prices first; the comparators as written are one instance.

**The sharded exchange.** `Exchange` is a state machine whose actions are a producer's enqueue, a worker's dequeue and
the end of a task; a schedule is any sequence of possible actions, and its theorems quantify over all schedules.
`Workers` runs tasks on the `OrderBook` objects of the shards, one for each symbol; `Pool` is the exchange with its
queues and book objects as one object whose calls and worker steps are these actions.

**The FIX codec.** From bytes to tree: `FixBytes` (bytes and decimal numbers), `FixTags` (the table of tags), `Scanner`
(the tokenising loop, with and without the bulk read), `Encoding` (encoded fields are found again), `GroupTree` (the
stack machine for nested repeating groups, on trees), `Builder` (the class that writes a message), `RoundTrip` and
`MessageTrees` (parsing undoes building, for flat messages and for trees), `Definitions` (which messages that covers,
from the registered definitions alone). From tree to heap: `Arena` (the bump allocator), `FieldStore` (field maps and
linked chains of group instances in the arena), `HeapTrees` (the tree that they stand for, and that the parser's
pointers stand for the machine), `Rooms` (how many maps a parse opens, and what room it finds in them), `Parser`
(`FixMessage::parse` with its buffer, scanning loops, stack and pointers) and `EndToEnd` (builder and parser one after
the other, and how much room a message needs). `Sequences` has one lemma about concatenation.

The proofs need nothing beyond Dafny 4.11: `dafny verify dfyconfig.toml` checks all of them.

## Where the code and its intent differ

- `pop` narrows the 64-bit identifier to `int` before it erases it from the index (core/OrderBook.hpp:95). The queue and
  all that rests on it erase the identifier of the removed order, which is what the code means to do. `PopNarrowing` has
  the pop as coded, `CodedBooks` the match, the commands and the runs of a book with it: exactly when they are the
  intended ones, so that everything proved of a run holds of the code, and inputs on which they are not. In a run of new
  orders alone, trades and resting orders are as intended in any case.
- Both comparators are commented as FIFO but put the newest order first on a tie (core/OrderBook.hpp:17-18, 27-28). The
  model follows the code. `TimePriority` proves first in, first out over whole runs for the variant with `<`, says
  exactly which runs of the code as written keep time priority, and has a run that does not.
- `volumes_` is not touched by matching (core/OrderBook.cpp:57-81). `Ledger.LevelTotals` states what it then holds.
- `modifyOrder` looks among the bids only, and cancels before it validates the replacement (core/OrderBook.cpp:111-122),
  so it can return CANCELLED together with REJECTED, or with ACCEPTED, which the validity rule for flags refuses; a
  modification to volume 0 does.
- `writeChecksum` writes its digits one position too far to the right and over the SOH (core/Builder.hpp:210-215), so
  the trailer is `10=0NNN` without SOH where the comment says `10=NNN` with one (core/Builder.hpp:111). Both forms are
  modelled; back-to-back framing holds for the commented one only.
- The room for the trailer is asked for twice (core/Builder.hpp:123 and 216), so a message has to stay seven bytes below
  the limit of its builder.
- The header is written by `reset` only, so a builder that was never reset makes a message without one.
- A group instance is opened before its count is looked at (core/Parser.cpp:100-103): a count of 0 or less behaves as 1.
- When the bulk read comes up short the parser returns with the BodyLength field stored but without looking at its group
  definitions (core/Parser.cpp:76-86); the model does the same.

## Model

| member | source | states |
|---|---|---|
| Orders.PackUnpack | core/Order.hpp:35-42 | Packing a client id and a timestamp into an identifier and unpacking it are inverse to each other, in both directions. |
| Orders.ClientField | core/Order.hpp:52-53 | What the bounded copy leaves of a client text: its longest prefix of at most seven characters without a NUL. |
| Orders.GlobalSequencer.NextTimestampNs | core/GlobalSequencer.hpp:35-38 | Each call takes one draw, the next one of the sequence, in 64-bit wrapping arithmetic. |
| Orders.FreshIds | core/GlobalSequencer.hpp:28-38 | Up to 2^32 orders built from one sequencer have pairwise different identifiers, whatever client ids they carry and wherever the sequence stands. |
| Orders.FreshIdsIsTight | core/Order.hpp:46-48 | 2^32 draws later an identifier comes back, exactly when the client ids are equal. |
| Orders.TimestampsInOrder | core/GlobalSequencer.hpp:35-38 | The 32-bit timestamps of a sequence of orders increase as issued if and only if the low 32 bits do not wrap within the sequence. |
| Orders.BothComparatorsArePriceFirst | core/OrderBook.hpp:14-32 | Both comparators, as written and with the tie turned round, are strict weak orders under which a better price goes first. |
| OrderQueues.PushWellFormed | core/OrderBook.hpp:76-82 | A push keeps the multiset sorted, every resting order valid, and every index entry on a live element with its identifier. |
| OrderQueues.RemoveWellFormed | core/OrderBook.hpp:101-109 | A removal keeps the same. |
| OrderQueues.TopIsMinimal | core/OrderBook.hpp:71-74 | The top is an element that nothing in the queue goes before; there is none exactly when the queue is empty. |
| OrderQueues.StepAgrees | core/OrderBook.hpp:76-109 | One operation, with the pop that is meant, keeps the index a bijection onto the elements if and only if it does not push a resting identifier; and then the index changes as a plain map from identifier to order would. |
| OrderQueues.RunAgrees | core/OrderBook.hpp:64-109 | After any sequence of pushes, pops as they are meant and removals, with fresh identifiers, the queue is sorted, the index is a bijection onto it, and find answers as on a plain map. |
| OrderQueues.FifoKeepsTimePriority | core/OrderBook.hpp:17-18 | With the tie broken by `<`, of two resting orders at one price the older one is never behind. |
| OrderQueues.PriorityQueueAdapter.PushOrder | core/OrderBook.hpp:76-82 | The class method does what Push does, and reports whether the order was valid. |
| OrderQueues.PriorityQueueAdapter.PopOrder | core/OrderBook.hpp:92-99 | The class method takes the front order out of the multiset, and its own identifier out of the index, which is the erasure that is meant. |
| OrderQueues.PriorityQueueAdapter.RemoveOrder | core/OrderBook.hpp:101-109 | The class method does what Remove does, and reports whether the identifier was there. |
| OrderQueues.PriorityQueueAdapter.IsValid | core/OrderBook.hpp:111-116 | The loop answers whether every resting order is valid. |
| PopNarrowing.NarrowKeepsExactly | core/OrderBook.hpp:95-96 | An identifier survives its way through `int` if and only if it is a sign extension of 32 bits. |
| PopNarrowing.FitsIntInParts | core/OrderBook.hpp:95 | In terms of client id and timestamp: only client ids 0 and 2^32 - 1 can be safe, each with half of the timestamps. |
| PopNarrowing.CodedPopAgrees | core/OrderBook.hpp:92-99 | The pop as coded keeps the index a bijection if and only if the popped identifier fits an `int`; otherwise it leaves an entry for an order that is gone. |
| PopNarrowing.CodedRunAgrees | core/OrderBook.hpp:92-99 | Over whole runs with fresh identifiers: the coded queue keeps its index throughout if and only if every popped identifier fits, and then it behaves as intended. |
| PopNarrowing.CodedPopLeavesStaleEntry | core/OrderBook.hpp:92-99 | A concrete run after which an order that was popped is still found. |
| PopNarrowing.CodedPopForgetsAnother | core/OrderBook.hpp:92-99 | A concrete queue in which popping one order makes another resting order impossible to find. |
| Matching.CrossingIsPrefix | core/OrderBook.cpp:57-60 | In a sorted queue the orders that cross an incoming order form a prefix. |
| Matching.MatchIsAllocation | core/OrderBook.cpp:57-71 | The matching loop computes the closed form: order i gets min(v_i, max(0, V - sum of the v_j before it)) if its price is within the limit of the incoming order and nothing otherwise, the queue and its index end as the untouched rest plus at most one reduced order, and the residue is V less all fills. |
| Matching.ReducedOrderIsAtHead | core/OrderBook.cpp:68-70 | When priority keys are distinct, the one reduced order is back at the head of the queue. |
| Matching.TradeThroughIntIsExact | core/OrderBook.cpp:63-66 | Although the trade volume passes through a signed 32-bit integer, both subtractions are exact over the whole unsigned 32-bit range. |
| OrderBooks.RunConcat | core/OrderBook.cpp:25-123 | A run of commands is the run of its first part followed by the run of the rest, in book, flags and events. |
| OrderBooks.NewOrderKeepsInv | core/OrderBook.cpp:25-84 | A new order keeps the book invariant: sorted valid queues, each with its own side, and no bid at or above an ask. |
| OrderBooks.CancelKeepsInv | core/OrderBook.cpp:86-106 | So does a cancellation. |
| OrderBooks.RunKeepsInv | core/OrderBook.cpp:25-123 | So does every run of new orders, cancellations and modifications. |
| OrderBooks.NeverCrossed | core/OrderBook.cpp:7-123 | After any run from the empty book every resting bid is strictly below every resting ask, each queue holds only its own side, every resting order is valid, and both queues are sorted. |
| OrderBooks.MatchOrderFills | core/OrderBook.cpp:48-84 | What an incoming order fills is what its trades sum to and what its volume shrinks by; if it can cross, that is more than nothing. The flags say whether it was filled, and if not, the rest is on the book; an invalid order is rejected and changes nothing. |
| OrderBooks.NewOrderFlags | core/OrderBook.cpp:25-84 | The flags tell the truth, each as an if-and-only-if: REJECTED for an invalid order, ACCEPTED alone for one that rested whole, with FULLY_FILLED when fills equal its volume, with PARTIALLY_FILLED when they lie strictly between and the residue rests; and the combination is always valid. |
| OrderBooks.ValidFlags | core/OrderBook.hpp:159-170 | Of the combinations of the five flags the validity rule accepts exactly the ten without contradiction: REJECTED alone, none, and those without it in which neither both fill flags nor CANCELLED with ACCEPTED occur. |
| OrderBooks.CancelTakesOut | core/OrderBook.cpp:86-106 | A cancellation takes out exactly one order, the bid with the identifier if there is one, otherwise the ask, and leaves the other side alone; it is rejected, and nothing changes, if and only if there is neither. |
| OrderBooks.ModifyReplaces | core/OrderBook.cpp:111-122 | Modifying a resting bid cancels it and enters an order with the new price and the new volume, on the buy side, for the same client under the same client id, with the low 32 bits of the draw for its timestamp; what it does not trade rests. |
| OrderBooks.ModifyFlags | core/OrderBook.cpp:108-123 | A modification returns a valid flag combination if and only if there is no such resting buy order; CANCELLED with REJECTED exactly when there is one and its replacement is invalid, and then the order is gone. |
| OrderBooks.ModifyCanCancelAndReject | core/OrderBook.cpp:117-122 | A concrete run in which a modification cancels a bid and returns CANCELLED with REJECTED, which the validity rule for flags refuses. |
| Limits.EntryIsFair | core/OrderBook.cpp:57-71 | All trades that an entering order causes are its own, with orders of the other side, within the limits of both. |
| Limits.TradesWithinLimits | core/OrderBook.cpp:7-84 | In every run from the empty book, a buyer trades only with asks at or below its limit and a seller only with bids at or above its limit, and neither order gives more than it has. |
| CodedBooks.SameTrades | core/OrderBook.cpp:57-71 | Whatever the indices hold, the matching loop with the pop as coded trades with the same orders, in the same volumes, and leaves the same orders at rest. |
| CodedBooks.CodedMatchAgrees | core/OrderBook.cpp:57-71 | From a queue whose index is a bijection, that loop keeps it one if and only if each filled maker has an identifier that fits an `int`, and each reduced maker one that fits or whose narrowed key is not in the index; then it is the intended loop. |
| CodedBooks.NewOrderAgrees | core/OrderBook.cpp:25-84 | The same for a new order on a book: flags, trades, resting orders and totals are the intended ones always, the indices stay bijections if and only if every maker it meets is safe, and then the whole book is the intended one. |
| CodedBooks.CodedRunIsRun | core/OrderBook.cpp:25-123 | Over whole runs with fresh identifiers: the book as coded keeps its indices throughout if and only if every maker in the run is safe, and then its run is the intended run, in book, flags and events. |
| CodedBooks.NewOrdersAlone | core/OrderBook.cpp:25-84 | In a run of new orders alone, the book as coded returns the same flags, trades the same and ends with the same orders at rest as the intended one, whatever happens to its indices. |
| CodedBooks.CodedRunFromSequencer | core/Order.hpp:46-54 | So it is for orders and modifications that take their draws one after the other from a sequencer that does not wrap. |
| CodedBooks.TradedOrderIsCancelled | core/OrderBook.cpp:86-106 | A concrete run after which, as coded, an order that was filled is still found and can still be cancelled. |
| Lookups.RestingOrdersAreFound | core/OrderBook.cpp:129-139 | After every run in which no order enters with an identifier that rests already, getOrder finds an order under an identifier if and only if that order rests, on either side, and the identifier is its own. |
| Lookups.DrawnOrdersAreFound | core/OrderBook.cpp:129-139 | So it is for orders and modifications that take their draws one after the other from a sequencer that does not wrap. |
| TimePriority.AsWrittenMatchInIssueOrder | core/OrderBook.hpp:15-30 | As written, the trades of a match are in order of issue if and only if the incoming order gets to no second order at one price, but for equal timestamps. |
| TimePriority.FifoRunIsInTime | core/OrderBook.hpp:17-18 | With the tie broken by `<`, in every run no order trades while an older one waits at its price. |
| TimePriority.AsWrittenRunIsInTimeIfAlike | core/OrderBook.hpp:15-30 | With the comparators as written, that holds of a run if and only if every order that trades in it is, but for equal timestamps, alone at its price at that moment. |
| TimePriority.RunInOrder | core/OrderBook.cpp:25-123 | In a run of which it holds, with timestamps that do not decrease, any two trades at one price level, of one command or of two, take their makers in order of issue. |
| TimePriority.SequencedStamps | core/GlobalSequencer.hpp:35-38 | Commands that take their draws in order from one sequencer have timestamps that do not decrease, as long as the low 32 bits do not wrap. |
| TimePriority.FifoTradesInIssueOrder | core/OrderBook.hpp:17-18 | So with the tie broken by `<` and orders from one sequencer that does not wrap, the orders at any one price trade, over the whole run, in the order in which they were issued. |
| TimePriority.AsWrittenTradesInIssueOrder | core/OrderBook.hpp:15-30 | As written they do when every order that trades is alone at its price at that moment. |
| TimePriority.NewerGoesInFront | core/OrderBook.hpp:15-19 | Two bids pushed in order of issue at one price stand in reverse order in the queue. |
| TimePriority.NewerTradesFirst | core/OrderBook.cpp:57-71 | A concrete run in which the newer of two bids at one price trades before the older one; with `<` it is the other way round. |
| Ledger.MatchBalanced | core/OrderBook.cpp:57-71 | What leaves the opposite queue at a price level is what the trades there sum to. |
| Ledger.StepBalanced | core/OrderBook.cpp:25-123 | Every command balances resting, accepted, cancelled and traded volume on each side and each level. |
| Ledger.Conservation | core/OrderBook.cpp:57-106 | Over any run: on each side accepted volume is resting, cancelled or traded, and both sides traded the same. |
| Ledger.LevelTotals | core/OrderBook.cpp:34-101 | Over any run, `volumes_` at a price and side is, modulo 2^32, the resting volume plus what was executed there less the residues that came to rest there; it is the resting volume if and only if that difference vanishes modulo 2^32. |
| Ledger.LevelTotalsWithoutTrades | core/OrderBook.cpp:34-101 | In every run without a trade `volumes_` is the resting volume of each level. |
| Ledger.LevelTotalsMissTrades | core/OrderBook.cpp:57-71 | A concrete run with one trade after which `volumes_` differs from the resting volume. |
| NonInterference.InsertWithout | core/OrderBook.hpp:79 | Inserting an order into a sorted queue and then taking out another one is the same in either sequence. |
| NonInterference.MatchHide | core/OrderBook.cpp:57-71 | A match that does not touch an order goes the same way, trade by trade, without that order. |
| NonInterference.RunShadows | core/OrderBook.cpp:25-123 | Two books that differ by one order alone stay so, with equal flags and events, through any run that leaves that order alone. |
| NonInterference.StayLeavesNoTrace | core/OrderBook.cpp:25-106 | From any sound book: an order that rests whole, is left alone and is cancelled leaves no trace. |
| NonInterference.LeavesNoTrace | core/OrderBook.cpp:7-106 | In any run from the empty book: deleting the arrival and the cancellation of such an order changes no other flag and no other event, and leaves the same queues and the same totals, absent ones read as 0. |
| Engine.OrderBook.NewOrder | core/OrderBook.cpp:25-46 | The method on queue objects does what the function on values does, and keeps the invariant and the balanced history. |
| Engine.OrderBook.TradeWithBest | core/OrderBook.cpp:58-70 | One turn of the loop: pop the best, trade through `int`, push it back if volume is left. |
| Engine.OrderBook.MatchAll | core/OrderBook.cpp:57-71 | The while loop, which ends because the incoming volume decreases, computes the recursive match. |
| Engine.OrderBook.MatchOrder | core/OrderBook.cpp:48-84 | The method does what the function does, flags included. |
| Engine.OrderBook.CancelOrder | core/OrderBook.cpp:86-106 | As does cancelOrder, which looks among the bids first. |
| Engine.OrderBook.ModifyOrder | core/OrderBook.cpp:108-123 | As does modifyOrder; it draws from the sequencer exactly when the order is a resting bid. |
| Engine.OrderBook.GetTopOfBook | core/OrderBook.cpp:125-127 | The bid returned is the highest, the ask the lowest, and the bid is strictly below the ask. |
| Engine.OrderBook.GetOrder | core/OrderBook.cpp:129-139 | A bid with the identifier is found, otherwise an ask with it, and nothing if and only if there is neither; what is found carries the identifier and rests in the queue of its own side. |
| Exchange.QueueInvHolds | core/ThreadPool.cpp:7-24 | In every interleaving of producers and workers, what was taken and what is queued of each producer's jobs is what it issued, in order. |
| Exchange.ExactlyOnce | core/ThreadPool.cpp:9-24 | In every reachable state each issued task is in exactly one place: queued, running or run, once, in the shard of its symbol; no other shard has taken it, and no other queue, of another shard or another producer, holds it. |
| Exchange.ServedInOrder | core/ThreadPool.cpp:12-13 | What a worker has taken of one producer's tasks is a prefix of what that producer issued for the shard. |
| Exchange.JobsStandByHash | core/Exchange.cpp:15-17 | In every reachable state an issued job stands in a shard, waiting or taken, if and only if the hash of its symbol modulo the number of shards is that shard. |
| Exchange.TogetherByHash | core/Exchange.cpp:15-17 | Two issued jobs stand in one shard if and only if the hashes of their symbols leave the same remainder. |
| Exchange.TaskTakesEffect | core/Exchange.cpp:22-36 | A task changes the book of its own symbol only; a cancellation takes the order out that rests under its identifier, and a valid order that trades with nothing comes to rest. |
| Exchange.BooksAreFolds | core/Exchange.cpp:19-39 | The books of a shard are the fold of what its worker has run. |
| Exchange.FoldIsRun | core/Exchange.cpp:22-37 | Of a fold of tasks, each symbol's book is the sequential run of that symbol's own commands. |
| Exchange.BookIsSequentialRun | core/Exchange.cpp:15-39 | In every reachable state each symbol's book is the sequential run of its own commands in the order in which its shard took them. |
| Exchange.ScheduleIndependence | core/Exchange.cpp:15-39 | Schedules that agree on the order of a symbol's commands in its shard agree on its book, whatever else they do; if they agree on all of a shard's tasks they agree on all its books. |
| Exchange.BookIsAtHome | core/Exchange.cpp:15-25 | A symbol has a book in no shard but that of the remainder of its hash. |
| Exchange.BooksNeverCrossed | core/Exchange.cpp:15-39 | Every book in every reachable state satisfies the book invariant; in particular it is not crossed. |
| Pool.ShardedExchange.NewOrder | core/Exchange.cpp:19-27 | The call queues a task for the shard of its symbol, as the enqueue step says, and the object stays one that its schedule leads to. |
| Pool.ShardedExchange.CancelOrder | core/Exchange.cpp:29-39 | The same for a cancellation. |
| Pool.ShardedExchange.EnqueueJob | core/ThreadPool.cpp:22-24 | The job goes to the end of its producer's part of one shard's queue, and nothing else changes. |
| Pool.ShardedExchange.TryDequeue | core/ThreadPool.cpp:11-12 | An idle worker takes the oldest job of a producer, or finds none and changes nothing. |
| Pool.ShardedExchange.RunJob | core/ThreadPool.cpp:13 | The worker runs the job it has taken on the book object of its symbol, which is created if need be; the objects of all shards then hold the books of the next state, still without an object in common. |
| Pool.ShardedExchange.BooksAreSound | core/Exchange.cpp:15-39 | After any calls and worker steps, the book object of a symbol is in the symbol's shard, it is not crossed, and it holds the sequential run of the symbol's commands in the order in which they were taken. |
| Workers.RunAt | core/Exchange.cpp:22-36 | A task changes the book object of its own symbol as it does on values, and the objects of all other symbols hold what they held. |
| Workers.RunTaskOn | core/Exchange.cpp:22-36 | On the book objects of a shard, one for each symbol and no two with a part in common, a task does what it does on the map of values: a new order creates the object of its symbol if there is none, a cancellation does not. |
| Workers.RunTaskIn | core/Exchange.cpp:22-36 | A task run in one shard leaves the book objects of all other shards alone, and no two shards have an object in common afterwards. |
| Workers.Work | core/ThreadPool.cpp:10-17 | After a worker's loop over its tasks the book objects of the shard hold the fold of the tasks, symbol by symbol. |
| FixBytes.ParseLong | core/FieldMap.hpp:33-46 | The reading loop over a slice of a byte buffer computes the signed decimal value of the slice. |
| FixBytes.ReadingIsPositional | core/FieldMap.hpp:40-44 | Whatever the bytes, each is worth its distance from the digit zero, moved by as many decimal places as bytes follow it. |
| FixBytes.DigitsRoundTrip | core/FieldMap.hpp:40-44 | Reading written digits gives the number back; every accumulator value stays a 64-bit integer exactly when the number is one. |
| FixBytes.IntegerRoundTrip | core/Builder.hpp:140-145 | Reading a written integer gives it back. |
| FixBytes.ReadingStaysInInt64 | core/FieldMap.hpp:33-46 | For 64-bit integers no intermediate value leaves the 64-bit range, if and only if the integer is not the least one. |
| FixBytes.NoZerosInFront | core/Builder.hpp:140-145 | A written number has no zeros in front. |
| FixBytes.PaddedDecodes | core/Builder.hpp:194-202 | A fixed-width number that fits decodes to itself. |
| FixBytes.ZerosThenDigits | core/Builder.hpp:197-201 | Right-justifying digits over zeros gives the fixed-width form. |
| FixTags.TagRoundTrip | common/FieldTag.hpp:258-288 | In a table of different texts without `=` and SOH, looking up the text of a tag gives the tag back. |
| FixTags.TableReadsBack | common/FieldTag.hpp:258-288 | So every tag of such a table is recovered from its text. |
| Scanner.NextTokenIsField | core/Parser.cpp:45-69 | The scanning loops find a field if and only if there is one: its tag is what the table makes of the bytes up to the first equals sign, its value the bytes from there up to the first SOH. |
| Scanner.PlainOfFound | core/Parser.cpp:44-74 | Where fields are found one behind the other, the plain parser takes exactly these and goes on behind them. |
| Scanner.PrefetchRefinesPlain | core/Parser.cpp:27-86 | The bulk read at BodyLength changes nothing, neither the fields found nor the reason to stop nor the bytes consumed, if and only if no BodyLength overstates the rest of its message. |
| Scanner.FieldsSurvivePrefetch | core/Parser.cpp:78-86 | Overstating cannot change the fields found unless the bulk read comes up short; then a prefix of them is found. |
| Scanner.MessageInStream | core/Parser.cpp:27-86 | A whole message at the front of any stream is parsed as if it were alone, and exactly its bytes are consumed. |
| Scanner.BackToBack | core/Parser.cpp:27-86 | Concatenated messages parse one by one, each as if it were alone, whatever follows. |
| Encoding.TokenFound | core/Builder.hpp:31-37 | Where an encoded field stands in the input, the tokeniser finds it with its tag and its value. |
| Encoding.EncodedIsFound | core/Builder.hpp:31-37 | Where a list of encoded fields stands, the tokeniser finds exactly these, one behind the other. |
| Encoding.EncodedIsReadable | core/FieldMap.hpp:137-143 | And the value of each can be read at its offset. |
| GroupTree.FirstMatchConcerns | core/Parser.cpp:99-107 | The loop over the definitions decides by the first one that the tag concerns, wherever in the list it is, and by none if there is none. |
| GroupTree.MachineMoves | core/Parser.cpp:97-126 | The group machine moves in three ways: a harmless field is stored, a count field opens an instance, an end tag closes one and returns or goes on to a sibling as the count says. |
| GroupTree.StrayEndIsIgnored | core/Parser.cpp:106-111 | An end tag changes nothing at the root, nor where the enclosing map has no count field of its group. |
| GroupTree.UnknownCountEndsGroup | core/Parser.cpp:109-118 | A count field whose tag is not in the table announces no instances, so its group is left at the first end tag. |
| GroupTree.FeedItems | core/Parser.cpp:76-126 | Feeding the fields of legal items, with groups nested to any depth, adds to the current map exactly their fields and instances, in order. |
| GroupTree.FeedInstances | core/Parser.cpp:106-125 | Feeding the instances of a group from the first on ends on the map that holds the group, with all instances in order. |
| Builder.Builder.constructor | core/Builder.hpp:21-25 | A new builder is empty and has no header. |
| Builder.Builder.AddField | core/Builder.hpp:31-37 | A field that fits is appended as tag, equals sign, value and SOH, and the body length is the number of bytes since the body began; otherwise what fits of it stays behind. |
| Builder.Builder.AddInt | core/Builder.hpp:39-45 | The same for an integer in decimal. |
| Builder.Builder.Append | core/Builder.hpp:71-79 | The contents of another builder are appended and accounted for, and that one then holds a fresh header; if they do not fit nothing changes. |
| Builder.Builder.Reset | core/Builder.hpp:89-107 | The builder holds the header with six zeros for the length, and accounts for an empty body. |
| Builder.Builder.BackfillBodyLength | core/Builder.hpp:194-202 | A length of up to six digits takes the place of the six reserved digits, right-justified with zeros in front; whatever the length, nothing else changes. |
| Builder.Builder.WriteChecksum | core/Builder.hpp:204-219 | The summing loop in 32-bit arithmetic, and the trailer as coded: `10=0NNN` without SOH. |
| Builder.Builder.Build | core/Builder.hpp:83-87 | The view is the contents with the length filled in, followed by the trailer over it, or without a trailer if there is no room for one. |
| Builder.SumOfParts | core/Builder.hpp:204-209 | The checksum sum is additive, and each byte counts for itself. |
| Builder.FramingDecodes | core/Builder.hpp:194-219 | In a built message the length digits decode to the body length, the checksum digits to the sum modulo 256 of all bytes before the CheckSum field, and all other bytes are as written. |
| Builder.BuildMessage | core/Builder.hpp:31-107 | A reset, a list of fields and build succeed if and only if 14 bytes are left for the trailer; for a body length of up to six digits they make exactly the message specified. |
| RoundTrip.ParseUndoesBuild | core/Parser.cpp:44-95 | From a built message alone the parser takes exactly the two header fields and the fields that were added, in order, each readable as written, and all bytes. |
| RoundTrip.BuiltInStream | core/Builder.hpp:204-219 | In a stream the fields are the same, but the CheckSum value runs on to the first SOH behind the message: exactly the message is consumed if and only if nothing follows. |
| RoundTrip.CommentedRoundTrip | core/Builder.hpp:111 | With the trailer as commented, `10=NNN` and SOH, the same fields are found and the message is framed. |
| RoundTrip.BuiltBackToBack | core/Parser.cpp:27-86 | Any number of such messages in a row parse one by one, whatever follows. |
| MessageTrees.TreeReads | core/FieldMap.hpp:71-186 | The tree that a message stands for reads, value by value and instance by instance, as the message. |
| MessageTrees.MessageFed | core/Parser.cpp:76-126 | Feeding the fields of a whole message, whose MsgType selects the definitions registered for it, rebuilds its tree. |
| MessageTrees.MessageRoundTrip | core/Parser.cpp:88-126 | For every message tree over the registered definitions: flattening it, building it and parsing the bytes gives back exactly that tree, with the order and nesting of all instances. |
| MessageTrees.CommentedMessageRoundTrip | core/Builder.hpp:111 | The same with the commented trailer in front of anything; then exactly the message is consumed, too. |
| Definitions.EveryDefinitionCounts | core/Parser.cpp:99-107 | When the tags of a list of definitions are all different, exactly the definitions in the list open and close groups. |
| Definitions.RegisteredIsLegal | core/Parser.hpp:26-40 | When those registered for its type are all different, a message is legal if and only if its groups are over definitions registered for its type, announce their instances, and no tag is used twice in a map. |
| Definitions.RegisteredRoundTrip | core/Parser.cpp:88-126 | Such a message comes back from its bytes as exactly its tree, whatever follows them. |
| Definitions.SecondDefinitionCounts | core/Parser.cpp:99-123 | A message with two instances of a group over the second of two definitions comes back with both of them. |
| MessageTrees.FieldsRoundTrip | core/FieldMap.hpp:137-143 | Without definitions: exactly the header fields and the fields that were added are found, and getString gives for each the value written. |
| Rooms.ItemsCost | core/Parser.cpp:97-126 | Feeding legal items, with groups nested to any depth, opens exactly their group instances, and finds a place for every field if and only if no map gets more than 64. |
| Arena.SurvivorsLieBelow | core/Alloc.hpp:55-59 | When the offset moves down, exactly the blocks below it survive, still disjoint. |
| Arena.Buffer.Allocate | core/Alloc.hpp:46-53 | A new block overlaps no live one; there is none exactly when the arena is exhausted. |
| Arena.Buffer.Deallocate | core/Alloc.hpp:55-59 | Exactly the blocks below the new offset stay live; giving back more than was allocated does nothing. |
| Arena.Buffer.Reset | core/Alloc.hpp:61-64 | No block is live and the whole arena is free. |
| FieldStore.ChainsAreDisjoint | core/FieldMap.cpp:28-48 | Chains of different fields share no instance, and no chain runs into itself. |
| FieldStore.LastValueCounts | core/FieldList.hpp:25-41 | A stored field is found under its tag with the new value and the group pointers it had, every other field as before; the list grows only for a new tag. |
| FieldStore.SetKeepsOk | core/FieldList.hpp:25-41 | Storing a plain field, over another one or not, keeps every chain, its end pointers and its links. |
| FieldStore.AddKeepsOk | core/FieldMap.cpp:9-49 | Adding an instance keeps the invariant: head and tail pointers, links, increasing positions in the arena, distinct tags. |
| FieldStore.ChainsAreHistory | core/FieldMap.cpp:9-51 | After any sequence of set and addGroup the invariant holds and each chain is the instances that were added to its field, in order. |
| FieldStore.Store.Put | core/FieldList.hpp:25-41 | The scan-and-overwrite loop stores the field and keeps the group pointers of the one it replaces. |
| FieldStore.Store.AddGroup | core/FieldMap.cpp:9-49 | The in-place update of head, tail and link is the addition of an instance; it fails, changing nothing, exactly when the arena is exhausted. |
| FieldStore.Store.Group | core/FieldMap.cpp:67-74 | Following the chain n times gives the n-th instance added, or none if there are fewer. |
| FieldStore.Store.GroupCount | core/FieldMap.cpp:76-84 | Following the chain to its end counts the instances added. |
| FieldStore.Store.GetGroup | core/FieldMap.cpp:59-64 | The index-th instance of the group, or none. |
| FieldStore.Store.MapsDoNotOverlap | core/Parser.hpp:50-57 | In the arena no map overlaps another one or the message bytes. |
| FieldStore.Store.Reset | core/Parser.hpp:50-57 | One empty root map, and the arena holds it and the message bytes only. |
| HeapTrees.TreeStays | core/FieldMap.cpp:9-51 | Changing one map changes the trees below those maps only that it hangs on. |
| HeapTrees.TreeAfterSet | core/FieldList.hpp:25-41 | Storing a field in the linked maps is putting it into the tree they stand for. |
| HeapTrees.TreeAfterAdd | core/FieldMap.cpp:9-49 | Adding an instance to the linked maps is adding an empty one at the end of the field's groups in the tree. |
| HeapTrees.TreeAroundChange | core/FieldMap.cpp:45-48 | A change below the last instance on a field shows in that instance of the owner's tree and nowhere else. |
| HeapTrees.OpenRepresented | core/Parser.cpp:100-103 | Pushing the current map and moving into a new instance is opening a group of the machine on trees. |
| HeapTrees.RootRepresented | core/Parser.cpp:23-25 | The tree below the root map is the machine's root. |
| Parser.ScanTo | core/Parser.cpp:45-66 | The scanning loop finds the next occurrence of a byte, reading from the stream only where the buffer ends, and the buffer stays a prefix of the stream. |
| Parser.ReadAhead | core/Parser.cpp:80-85 | The bulk read gets exactly seven bytes past the announced body, or reports that the stream ends before. |
| Parser.MachineDecides | core/Parser.cpp:106-123 | What the parser decides at an end tag by the count field and the chain in the arena is what the machine decides on its tree. |
| Parser.Regroup | core/Parser.cpp:99-126 | The loop over the definitions, with its pointers and its stack, does what the machine does. |
| Parser.ParsingGoesOn | core/Parser.cpp:44-97 | Taking one field in the middle of a parse leaves a parse of what follows. |
| Parser.Parse | core/Parser.cpp:14-128 | Whatever the stream, as long as buffer, maps and arena are not exhausted: the root map left in the arena is the tree that the stream stands for, exactly the bytes that a parse consumes are taken and stand in the buffer, and the arena holds one map for the root and one for each group instance that was opened. |
| EndToEnd.MessageCost | core/Parser.cpp:76-126 | Parsing the fields of a legal message opens exactly as many maps as the message has group instances, and finds a place for every field if and only if no map gets more than 64. |
| EndToEnd.FitsIsAffordable | core/Parser.hpp:50-63 | A built message can be parsed without exhausting anything if and only if its bytes fit the buffer, each map takes its fields, and the arena takes a map for the root and for each group instance. |
| EndToEnd.DefaultSizeTakes | core/Parser.hpp:59-63 | A FixMessage of the default size takes a built message if and only if it has up to 2048 bytes, up to 64 fields in each map and up to two group instances. |
| EndToEnd.DefaultSizeTakesPlainMessages | core/Parser.hpp:59-63 | So it takes a message without groups if and only if it has up to 2048 bytes and up to 64 fields. |
| EndToEnd.SendAndReceive | core/Parser.cpp:14-128 | Building a message that fits and parsing its bytes leaves field maps in the arena that read as the message with its header in front; building succeeds exactly when there is room in the builder. |

## Left out

- `Exchange::getOrder`: it reads a shard from another thread without synchronisation.
- Internals of the concurrent queue, of the standard containers and of threads: the queue is first in, first out for each
  producer with a free choice between producers, the multiset inserts behind its equals, the rest are sequences and maps.
- The stop request of a worker, idle turns of its loop and the order in which memory operations become visible.
- `addTime` and `writeTime`: they depend on the calendar and nothing reads them back.
- `type_`, `tim_`, `Order::operator<` and the assignment operators: matching never uses them.
- The contents of the tag and message-type tables: any table of different texts without `=` and SOH that has the texts of
  the four tags that the codec itself looks at in their places.
- OrderQueues.PriorityQueueAdapter.PopOrder: erases the identifier that is meant; the narrowing through `int` is in
  `PopNarrowing` and `CodedBooks`, where it is compared with this.
- OrderQueues.StepAgrees: its pop is the intended one; `PopNarrowing.CodedStepAgrees` has the coded one.
- OrderQueues.RunAgrees: its pops are the intended ones; `PopNarrowing.CodedRunAgrees` has the coded ones.
- What the coded book does once it follows a stale index entry to an erased element; the model returns the erased order and
  erases nothing.
- FixBytes.ParseLong: does not model the 32-bit overflow of `parseInt`, which runs the same loop; lengths and counts are
  integers without bound. Bytes count as unsigned, so a byte of 128 or more inside a number is read as on a platform with
  unsigned `char`.
- Parser.Parse: presupposes an input that fits the message buffer and 64 KiB, at most 64 fields in one map, and an arena
  that takes the root map, the message bytes and a map for each group instance that is opened; what happens beyond that, a
  failed assertion, an exception or a write out of bounds, is not modelled.
- A FieldMap pointer is the number of its block in the arena rather than a machine address; alignment is not modelled.
- The 32-byte client field and record layouts, hashing and the static assertions about them.
- `Buffer` move construction, the `Allocator` wrapper, logging, benchmarks and scripts.
