# Verified models of the concurrent, data-processing and vendored code

This project models the hard parts of the repository in Dafny and proves what they are for. Each
module follows one source file, or one object of it.

* `Philosophers`, `PhilosophersSafety`, `PhilosophersLiveness`, `PhilosophersRefinement`,
  `PhilosophersMeals`: the dining
  philosophers with one lock and a condition queue for each chopstick, as a step system for n
  philosophers with m meals. Awaiting, signalling, waking, re-acquiring the lock and spurious wake-ups
  are steps of their own. Philosophers and chopsticks count from 0 here and from 1 in the source.
* `WorkerPool`, `WorkerPoolDrain`, `WorkerPoolStop`, `Sums`: the half-sync/half-async pool. Producers push without a monitor between any two steps
  of the workers, and a channel write delivers one character at a time.
* `PingPong`: the two spinning threads, the atomic flag and the barrier, for any run count.
* `MapReduce`, `Flattening`, `Sorting`, `Multiplier`, `Joiner`, `FriendAsymmetry`: the group-by engine
  as a class, and the jobs that run on it. The matrix job is for any dimension.
* `TopTransactions`, `OrderedHashMap`, `Reports`, `ReportsAgree`, `Yoda`: the streaming and the batch
  report, their agreement, and the loaders that fill the tables.
* `JsBits`, `BitArray`, `Fips180`, `Sha1Hash`: JavaScript's 32-bit operators defined on bits, sjcl's
  tagged bit arrays, SHA-1 as FIPS 180-4 defines it on bit strings, and the incremental hash object.
* `BackboneEvents`, `BackboneCollection`: the event registry as linked nodes on the heap, and the
  collection with its redundant indexes.

What holds over all interleavings is stated for every reachable state of a step system. What a single
object does is a class with the source's fields, and its methods are tied to specification functions
about which the lemmas are proved. Lemmas named `...Plainly` say what these functions mean without
using them.

## Where the code does not do what one expects

* One philosopher alone deadlocks with itself (`PhilosophersLiveness.SelfDeadlock`), so freedom from
  deadlock holds exactly for two or more, or with nothing to eat.
* The block loop of `update` starts from a number masked to 32 bits. It is right exactly below
  2^31 - 512 bits, not up to 2^31 (`Sha1Hash.LoopStartExactly`); `Update` asks for that much at its start.
* A partial word of length 0 is tagged as if it were full (`BitArray.TagRecovered`).
* A repeated matrix entry is multiplied with its neighbour in the sort. The job is right for all values
  exactly when no position is listed twice (`Multiplier.RightExactly`).
* A person who lists themselves once as a friend is reported twice, and a pair listed twice in one
  direction only is not reported. These are the only inputs that go wrong (`FriendAsymmetry.RightExactly`).
* Backbone files a missing id under the name "undefined". Removing a model without an id, or giving a
  model its first id, deletes the entry of a member whose id is spelled like that; a changed id that
  another member has takes over that member's entry (`BackboneCollection.RemovalKeepsIds`,
  `BackboneCollection.Collection.SetId`, with `RemovalSpoils` and `SetIdSpoils` as examples). `reset`
  repairs the index.

## Model

| member | source | states |
|---|---|---|
| `PhilosophersSafety.ExecInv` | concurrent_programming/PA2/Program.java:29-126 | every run of any number of steps, with spurious wake-ups, from the start with n >= 2 philosophers keeps the invariant of the table: flags against holders, queues against parked threads, lock against program counters, counters against meals eaten |
| `PhilosophersSafety.FlagMeansHeld` | concurrent_programming/PA2/Program.java:103-126 | in every reachable state a chopstick's flag is 0 exactly when some philosopher's program counter says it holds the chopstick, and no chopstick has two holders, also between the two steps of a release |
| `PhilosophersSafety.HoldersOf` | concurrent_programming/PA2/Program.java:57-99 | only the two philosophers next to a chopstick can hold it, and which one follows from their program counters |
| `PhilosophersSafety.NeighboursNeverEatTogether` | concurrent_programming/PA2/Program.java:58-99 | no two neighbours eat at once and no two threads are inside the lock, in any reachable state |
| `PhilosophersSafety.NoLostWakeup` | concurrent_programming/PA2/Program.java:103-126 | every condition queue has at most one waiter, and a parked philosopher is always owed a signal: the chopstick is taken and its holder has not yet signalled; so `signal` is enough |
| `PhilosophersMeals.LogIs` | concurrent_programming/PA2/Program.java:57-126 | in every run what a philosopher does, read off the flags and its eating, is a row of whole meals and the part of one more that its program counter says; a meal is: pick up left then right for an even number, right then left for an odd one, eat, put down right, put down left |
| `PhilosophersMeals.EatsWithBoth` | concurrent_programming/PA2/Program.java:66-92 | in every reachable state a philosopher who eats has both chopsticks taken |
| `PhilosophersLiveness.PickUpOrder` | concurrent_programming/PA2/Program.java:66-86 | by the parity rule every philosopher picks up a chopstick of lower rank before one of higher rank |
| `PhilosophersLiveness.WaitsUpwards` | concurrent_programming/PA2/Program.java:66-86 | in a state where nothing can move, a parked philosopher waits for one that is parked at a chopstick of higher rank |
| `PhilosophersLiveness.StuckMeansDone` | concurrent_programming/PA2/Program.java:29-126 | for n >= 2 a reachable state without a possible step is the end of the dinner: all counters 0, all m meals eaten, every chopstick free, every queue empty, the lock free |
| `PhilosophersMeals.AllMealsServed` | concurrent_programming/PA2/Program.java:29-126 | a run that cannot go on has served every philosopher exactly m such meals |
| `PhilosophersLiveness.DeadlockFreeExactly` | concurrent_programming/PA2/Program.java:29-126 | no deadlock is reachable if and only if n >= 2 or there is nothing to eat |
| `PhilosophersLiveness.SelfDeadlock` | concurrent_programming/PA2/Program.java:57-126 | one philosopher alone waits for the chopstick in its own hand: a reachable deadlock |
| `PhilosophersLiveness.Spent` | concurrent_programming/PA2/Program.java:29-126 | steps taken plus what the measure still holds never exceed n(29m+1) plus 4 for each spurious wake-up |
| `PhilosophersLiveness.RunsAreFinite` | concurrent_programming/PA2/Program.java:29-126 | a run of n >= 2 philosophers with m meals each has at most n(29m+1) steps, plus 4 for each spurious wake-up |
| `PhilosophersRefinement.StepRefines` | concurrent_programming/PA2/Program.java:103-126 | every step of lock, condition queue and re-check is either invisible or one step of a table where a chopstick is taken atomically when free |
| `PhilosophersRefinement.RefinesAtomicTable` | concurrent_programming/PA2/Program.java:29-126 | every run of the monitor maps to a run of the atomic table that ends in the abstraction of its last state |
| `WorkerPool.ExecInv` | concurrent_programming/PA4/HalfSyncHalfAsync.java:139-180 | every interleaving of producers, stop and n workers keeps the invariants of monitor, channel locks, output and stop flag |
| `WorkerPool.TasksAreConserved` | concurrent_programming/PA4/HalfSyncHalfAsync.java:139-180 | added tasks are, as multisets, the stacked ones, those in a worker's hand and the executed ones together; no task is lost or runs twice |
| `WorkerPool.NeverPopsEmpty` | concurrent_programming/PA4/HalfSyncHalfAsync.java:167-180 | `pop` never meets an empty stack although `addTask` takes no monitor, and at most one worker is in the monitor |
| `WorkerPool.WritesDoNotMix` | concurrent_programming/PA4/HalfSyncHalfAsync.java:293-303 | characters are written one at a time, and still a channel's output is the concatenation of the whole messages of the executed tasks plus the part of the one write in progress; two writes to one channel never overlap |
| `WorkerPool.OneMoreAfterStop` | concurrent_programming/PA4/HalfSyncHalfAsync.java:144-180 | a worker takes at most one more task after `stop`, and after that one goes through the monitor no more |
| `WorkerPool.SomeWorkerCanStep` | concurrent_programming/PA4/HalfSyncHalfAsync.java:167-180 | as long as a worker has not stopped, some worker can step |
| `WorkerPool.ChannelText` | concurrent_programming/PA4/HalfSyncHalfAsync.java:293-303 | with no write in progress the text of a channel is the messages of the tasks executed for it while connected, one after the other |
| `WorkerPoolDrain.TakesTheTop` | concurrent_programming/PA4/HalfSyncHalfAsync.java:167-176 | a worker at the start of its loop that finds the monitor free and the stack not empty has taken exactly the top task after four steps |
| `WorkerPoolDrain.LastAddedIsTaken` | concurrent_programming/PA4/HalfSyncHalfAsync.java:139-176 | the task that was added last is the one taken |
| `WorkerPoolDrain.Drains` | concurrent_programming/PA4/HalfSyncHalfAsync.java:139-180 | from every reachable state before the stop, with at least one worker, some schedule of worker steps empties the stack and brings all workers back to the start; the executed tasks are then exactly the added ones, each as often as it was added, and those executed on the way are delivered |
| `WorkerPoolStop.StopEndsTheWork` | concurrent_programming/PA4/HalfSyncHalfAsync.java:144-180 | in every run, once stopped, n workers take at most n(len+9) more steps when no message is longer than len, whatever the producers still add; and when none can step all have stopped |
| `PingPong.ExecInv` | concurrent_programming/PA1/Program.java:16-79 | every interleaving of the two spinning threads and main keeps the protocol's invariant, for any run count k |
| `PingPong.TraceAlternates` | concurrent_programming/PA1/Program.java:16-79 | line i of every reachable trace is Ping for even i and Pong for odd i below 2k, and Done as line 2k; the trace is complete when Done is printed or main is through |
| `PingPong.BarrierHolds` | concurrent_programming/PA1/Program.java:16-70 | nothing is printed before both threads and main have come to the barrier |
| `PingPong.SectionsExclude` | concurrent_programming/PA1/Program.java:16-57 | the sections that print, count and pass the flag on are mutually exclusive, and the flag belongs to the thread inside |
| `PingPong.ProgressIsPossible` | concurrent_programming/PA1/Program.java:16-79 | until main is done some step is possible that is not a spin |
| `PingPong.MovesAreBounded` | concurrent_programming/PA1/Program.java:16-79 | a run has at most 20k+19 steps that are not spins |
| `MapReduce.Engine.EmitIntermediate` | data_science/assignment3/MapReduce.py:8-10 | the dictionary stays the grouping of everything emitted so far: under each key its values in order of emission |
| `MapReduce.GroupOneMore` | data_science/assignment3/MapReduce.py:8-10 | appending to the list of a key, or to a new empty list, turns the grouping of what was emitted into the grouping with one pair more |
| `MapReduce.Engine.Execute` | data_science/assignment3/MapReduce.py:15-21 | the output is what the reducer makes of each emitted key's values, each key once, in some order of the keys |
| `MapReduce.OutputIgnoresOrder` | data_science/assignment3/MapReduce.py:15-21 | for a reducer that ignores the order of its values, two inputs with the same records in any order give the same output as multisets |
| `Multiplier.Mapper` | data_science/assignment3/multiplier.py:6-14 | an entry of a goes to every column of its row of the product, an entry of b to every row of its column, with the shared index and the value |
| `Multiplier.Reducer` | data_science/assignment3/multiplier.py:16-23 | sorting the pairs and adding the products of neighbours with equal index gives one result for the cell: the total of the sorted values |
| `Multiplier.NeighboursAreChains` | data_science/assignment3/multiplier.py:16-23 | over any sorted values the sum over equal neighbours is, index by index, the sum of the products of consecutive values with that index |
| `Multiplier.CellPair` | data_science/assignment3/multiplier.py:6-14 | what reaches cell (i,j) with index k is the entries a[i,k] and b[k,j] that are given, for every input |
| `Multiplier.CellTotalAlways` | data_science/assignment3/multiplier.py:6-23 | for every input, repeated entries included, a cell gets the sum over k of the chain of the values that meet there under k: those of a[i,k] and b[k,j] sorted, each multiplied with the next |
| `Multiplier.ComputesChains` | data_science/assignment3/multiplier.py:6-23 | the same for the whole output: every emitted cell has its chains, no cell is emitted twice, and nothing meets at a cell that is not emitted |
| `Multiplier.ChainsAreDot` | data_science/assignment3/multiplier.py:6-23 | for matrices without repeated entries the chains of a cell inside the dimension are its dot product, and 0 outside, wherever the entries lie |
| `Multiplier.AtPlainly` | data_science/assignment3/multiplier.py:6-14 | the element of a matrix at a position is the value of the only entry there, and 0 without an entry |
| `Multiplier.Run` | data_science/assignment3/multiplier.py:6-28 | the job is the engine run with this mapper and this reducer |
| `Multiplier.ComputesProduct` | data_science/assignment3/multiplier.py:6-23 | for matrices without repeated entries every emitted cell has the sum over k of a[i,k]*b[k,j], no cell is emitted twice, and every cell not emitted is 0 in the product; what happens otherwise is in RightExactly |
| `Multiplier.RightExactly` | data_science/assignment3/multiplier.py:6-23 | for every list of positions and every dimension: the output is the product for all values at these positions if and only if the dimension is 0 or no position of a or b is listed twice |
| `Multiplier.RepeatedSpoils` | data_science/assignment3/multiplier.py:16-23 | a position listed twice spoils every output for the values 1 there and 0 everywhere else, where the product is 0 however the repetition is read |
| `Multiplier.ProductIgnoresOrder` | data_science/assignment3/multiplier.py:16-23 | the output as a multiset does not depend on the order of the input |
| `Multiplier.RepeatedEntries` | data_science/assignment3/multiplier.py:16-23 | one such input: 2 and 3 at one place of a, 5 in b, and the job gives 21 |
| `Joiner.SplitTables` | data_science/assignment3/joiner.py:14-23 | the loop separates the orders from the line items, both in order |
| `Joiner.Reducer` | data_science/assignment3/joiner.py:14-28 | the reducer emits each order with each line item of its key, orders first |
| `Joiner.Run` | data_science/assignment3/joiner.py:9-28 | the job is the engine run with this mapper and this reducer |
| `Joiner.GroupJoins` | data_science/assignment3/joiner.py:14-28 | the rows of one key are the rows that the join over the whole input gives for records with that key |
| `Joiner.ComputesJoin` | data_science/assignment3/joiner.py:9-28 | the output is, as a multiset, the nested-loop join of orders and line items on the key, for every input |
| `Joiner.JoinPlainly` | data_science/assignment3/joiner.py:9-28 | that join spelled out: for each record of table order and each of table line_item with the same key one row, all fields of the order and then all of the line item |
| `FriendAsymmetry.Run` | data_science/assignment3/friend_assymetry.py:6-14 | the job is the engine run with this mapper and this reducer |
| `FriendAsymmetry.GroupCounts` | data_science/assignment3/friend_assymetry.py:6-9 | the group of a pair has as many values as the pair is listed in either direction |
| `FriendAsymmetry.EmittedCount` | data_science/assignment3/friend_assymetry.py:6-14 | how often (x,y) is emitted, for every input: once if the two are listed once in either direction, twice if they are the same person listed once, else never |
| `FriendAsymmetry.ComputesAsymmetry` | data_science/assignment3/friend_assymetry.py:6-14 | for input without repetitions and without self-friendship (x,y) is emitted exactly once if and only if exactly one of (x,y), (y,x) is listed |
| `FriendAsymmetry.RightExactly` | data_science/assignment3/friend_assymetry.py:6-14 | for every input: all pairs are reported right if and only if nobody is listed exactly once as their own friend and no pair listed in one direction only is listed more than once |
| `TopTransactions.Tracker.Add` | assignments/adaptv/TopTransactions.java:21-40 | after every call the map has exactly the n largest amounts seen so far, each with every customer ever added for it, and the heap has the same amounts; true is returned exactly when the amount is among them |
| `TopTransactions.HeldPlainly` | assignments/adaptv/TopTransactions.java:21-40 | what the tracker holds: only amounts that were added, at most n, all higher than every amount left out, none left out unless there are n; and for each amount every customer as often as they were added with it |
| `TopTransactions.TakesIn` | assignments/adaptv/TopTransactions.java:27-39 | a new amount that is not below the least one takes its place, and the map and the heap are again the top n of what was seen |
| `TopTransactions.Rejects` | assignments/adaptv/TopTransactions.java:27-28 | leaving out an amount below the least of n keeps the map the top n of what was seen |
| `TopTransactions.AddsToList` | assignments/adaptv/TopTransactions.java:22-25 | a customer for a known amount comes at the end of that amount's list and changes nothing else |
| `TopTransactions.TopIsUnique` | assignments/adaptv/TopTransactions.java:21-40 | being the n largest amounts determines the set of amounts |
| `TopTransactions.EvictedForEver` | assignments/adaptv/TopTransactions.java:21-40 | an amount that was seen and is not among the top never comes back, whatever is added later |
| `TopTransactions.Tracker.GetSortedKeys` | assignments/adaptv/TopTransactions.java:55-63 | the amounts in strictly descending order, each once, whatever order the heap gives them in |
| `TopTransactions.Tracker.Get` | assignments/adaptv/TopTransactions.java:42-53 | the records of all customers of the top amounts, highest amount first, customers sorted; the stored lists are sorted in place and lose nobody |
| `TopTransactions.ReportedPlainly` | assignments/adaptv/TopTransactions.java:42-53 | the report has the record of every addition with a kept amount, as often as it was added, the numbers never rise, and customers with the same number are in order unless two kept amounts are cast to one number |
| `TopTransactions.SortedInPlace` | assignments/adaptv/TopTransactions.java:46-46 | after `get` every stored list is in order |
| `TopTransactions.IntCastTruncates` | assignments/adaptv/TopTransactions.java:48-48 | the cast takes the fraction off, towards zero, and stops at the ends of the int range |
| `OrderedHashMap.OrderedMap.constructor` | assignments/adaptv/OrderedHashMap.java:12-27 | the tree inverts the map: under each value exactly the ids with that value, each once |
| `OrderedHashMap.OrderedMap.GetTop` | assignments/adaptv/OrderedHashMap.java:30-44 | the records of the n highest values, highest first, ids sorted, are returned and these values are gone from the tree |
| `OrderedHashMap.OrderedMap.GetBottom` | assignments/adaptv/OrderedHashMap.java:46-60 | the same from the lowest value |
| `OrderedHashMap.TopPlainly` | assignments/adaptv/OrderedHashMap.java:30-44 | what `getTop` takes: min(n, size) values, each above every value left; the records are those of these values, each id once, values falling and ids of one value in order; the rest of the tree is unchanged |
| `OrderedHashMap.BottomPlainly` | assignments/adaptv/OrderedHashMap.java:46-60 | what `getBottom` takes: min(n, size) values, each below every value left; the records are those of these values, each id once, values rising and ids of one value in order; the rest of the tree is unchanged |
| `Sorting.StrLePlainly` | assignments/adaptv/OrderedHashMap.java:36-36 | ids are in order when the first is a prefix of the second or has the smaller character where they first differ |
| `OrderedHashMap.RanksUnique` | assignments/adaptv/OrderedHashMap.java:30-60 | there is only one ranking of a set of values, so what is returned is determined |
| `OrderedHashMap.CallsCompose` | assignments/adaptv/OrderedHashMap.java:30-60 | a call for a and then one for b give the output of one call for a+b and leave the same tree, in both directions |
| `OrderedHashMap.OutConserves` | assignments/adaptv/OrderedHashMap.java:30-60 | what a call returns and what it leaves are, as records, what there was |
| `OrderedHashMap.CallsConserve` | assignments/adaptv/OrderedHashMap.java:30-60 | the same for any interleaving of `getTop` and `getBottom` calls |
| `OrderedHashMap.ExhaustingReportsEachOnce` | assignments/adaptv/OrderedHashMap.java:12-60 | any interleaving that empties the tree reports every entry of the original map exactly once and nothing else |
| `ReportsAgree.ReportsSame` | assignments/adaptv/TopTransactions.java:42-63 | when every customer occurs once, with an integer amount in range, the streaming report is the record sequence of the batch report |
| `ReportsAgree.BothReports` | assignments/adaptv/OrderedHashMap.java:12-44 | feeding all entries of a map to a tracker of size n and calling `get` returns the same records as building the tree and calling `getTop(n)` |
| `Yoda.Yoda.LoadTransactionsReport` | assignments/adaptv/yoda.java:164-194 | the load succeeds exactly when every book has a price; then the sales table has every book with the number of copies in all baskets, the visits table every customer with the number of transactions, and the tracker was fed every transaction's sum in order |
| `Yoda.Yoda.LoadTransactionsEligibility` | assignments/adaptv/yoda.java:138-160 | the load succeeds exactly when every book has a price; then the purchases table has every customer with the sum over all own transactions |
| `Yoda.Yoda.IsEligible` | assignments/adaptv/yoda.java:109-115 | 1 exactly for a customer with a transaction whose total spending is above the cut-off |
| `Yoda.SoldPlainly` | assignments/adaptv/yoda.java:196-201 | the sales of a book are the number of times it stands in the baskets |
| `Yoda.VisitsPlainly` | assignments/adaptv/yoda.java:203-210 | the visits of a customer are the number of transactions of that customer |
| `Yoda.SpentPlainly` | assignments/adaptv/yoda.java:212-220 | what a customer spent is, over all books, the price times the number of times the book stands in that customer's baskets |
| `Yoda.TotalPlainly` | assignments/adaptv/yoda.java:180-185 | what one transaction costs is, over all books, the price times the number of times the book stands in the basket |
| `Yoda.SpentIsTurnover` | assignments/adaptv/yoda.java:212-220 | the sum of what the customers spent is the sum of all transactions |
| `Yoda.SalesAreTurnover` | assignments/adaptv/yoda.java:196-201 | the sum of price times copies sold over all books is the sum of all transactions |
| `Yoda.TablesBalance` | assignments/adaptv/yoda.java:138-220 | the tables of the two loaders balance: total of the purchases equals total of price times sales, and the visits add up to the number of transactions |
| `BitArray.TagRecovered` | algos_princeton/PA1/Assignment Results   Algorithms, Part I_files/spark.js:5 | `getPartial` gives back the length that `partial` was given, exactly unless that length is 0, which reads back as 32; the tag is the length times 2^40 on top of a signed 32-bit number |
| `BitArray.BitLengthCounts` | algos_princeton/PA1/Assignment Results   Algorithms, Part I_files/spark.js:5 | `bitLength` counts the bits of every well-formed array |
| `BitArray.RawIsPadded` | algos_princeton/PA1/Assignment Results   Algorithms, Part I_files/spark.js:5 | the 32-bit words hold the bits and then zeros up to the end of the last word |
| `BitArray.BitsAt` | algos_princeton/PA1/Assignment Results   Algorithms, Part I_files/spark.js:5 | bit j of word k, from the top, is the binary digit of weight 2^(31-j) of the number that stands there |
| `BitArray.ShiftRight` | algos_princeton/PA1/Assignment Results   Algorithms, Part I_files/spark.js:5 | `_shiftRight` appends the carried bits and then the bits of a to the output; the result is well formed, every word but the last one full |
| `BitArray.Concat` | algos_princeton/PA1/Assignment Results   Algorithms, Part I_files/spark.js:5 | bits(concat(a,b)) == bits(a) + bits(b) for all well-formed arrays and all partial lengths |
| `BitArray.Clamp` | algos_princeton/PA1/Assignment Results   Algorithms, Part I_files/spark.js:5 | `clamp` keeps exactly the first n bits for every n from 0 to the length |
| `BitArray.ClampedPlainly` | algos_princeton/PA1/Assignment Results   Algorithms, Part I_files/spark.js:5 | what `clamp` leaves for every n: the first n bits; beyond the end zeros up to n if n cuts the last word, else everything; for a negative n what is above -n from the end of the words, and nothing when n is above -32 |
| `BitArray.ClampedIsFirst` | algos_princeton/PA1/Assignment Results   Algorithms, Part I_files/spark.js:5 | what `clamp` returns depends on the bits of the array only, not on what its words hold behind them |
| `BitArray.BitSlice` | algos_princeton/PA1/Assignment Results   Algorithms, Part I_files/spark.js:5 | `bitSlice` returns exactly the bits from start to end, or to the end of the array, and nothing for a start past the end; any other end cuts the bits from start on as `clamp` does |
| `BitArray.CutPlainly` | algos_princeton/PA1/Assignment Results   Algorithms, Part I_files/spark.js:5 | how `bitSlice` cuts the bits from start on, for every end, before the start and past the end of the array too |
| `BitArray.Equal` | algos_princeton/PA1/Assignment Results   Algorithms, Part I_files/spark.js:5 | `equal` is true exactly when the bits are the same |
| `Sha1Hash.RoundWord` | algos_princeton/PA1/Assignment Results   Algorithms, Part I_files/spark.js:5 | one round of the block function on JavaScript numbers is the round of FIPS 180-4, section 6.1.2, on words |
| `Fips180.RoundPlainly` | algos_princeton/PA1/Assignment Results   Algorithms, Part I_files/spark.js:5 | the round that is computed: turned by 5 and by 30, sums modulo 2^32, registers moved on (FIPS 180-4, section 6.1.2) |
| `Fips180.MixPlainly` | algos_princeton/PA1/Assignment Results   Algorithms, Part I_files/spark.js:5 | its function, bit by bit: choice in rounds 0 to 19, majority in 40 to 59, parity in the others |
| `Fips180.SchedulePlainly` | algos_princeton/PA1/Assignment Results   Algorithms, Part I_files/spark.js:5 | its schedule, bit by bit: the words of the block, then the parity of four earlier words turned by 1 |
| `Fips180.ConstantsPlainly` | algos_princeton/PA1/Assignment Results   Algorithms, Part I_files/spark.js:5 | its constants: the first 32 bits of the square roots of 2, 3, 5 and 10 |
| `Fips180.InitialPlainly` | algos_princeton/PA1/Assignment Results   Algorithms, Part I_files/spark.js:5 | the five words that a new hash object starts with |
| `Fips180.CompressPlainly` | algos_princeton/PA1/Assignment Results   Algorithms, Part I_files/spark.js:5 | 80 rounds, and the old hash value added register by register modulo 2^32 |
| `Fips180.PadPlainly` | algos_princeton/PA1/Assignment Results   Algorithms, Part I_files/spark.js:5 | the padded message: the message, a 1, zeros, and the length in 64 bits, as short as a multiple of 512 allows (FIPS 180-4, section 5.1.1) |
| `Sha1Hash.LoopStartExactly` | algos_princeton/PA1/Assignment Results   Algorithms, Part I_files/spark.js:5 | the masked start of the block loop in `update` is right if and only if the length is below 2^31 - 512; from there on it is too low by 2^32 or more |
| `Sha1Hash.CutsExactly` | algos_princeton/PA1/Assignment Results   Algorithms, Part I_files/spark.js:5 | `update` cuts off exactly the complete blocks if and only if the length before is below 2^31 - 512; from there on it cuts more and empties the buffer, and then the buffer is right if and only if the new length is a multiple of 512 |
| `Sha1Hash.PadWords` | algos_princeton/PA1/Assignment Results   Algorithms, Part I_files/spark.js:5 | the words that `finalize` pushes are the bit 1, the least zeros and the 64-bit length after the unprocessed tail |
| `Sha1Hash.Sha1.Block` | algos_princeton/PA1/Assignment Results   Algorithms, Part I_files/spark.js:5 | `_block` compresses the 16 words into the hash value as in FIPS 180-4, section 6.1.2 |
| `Sha1Hash.Sha1.Update` | algos_princeton/PA1/Assignment Results   Algorithms, Part I_files/spark.js:5 | the buffer always has exactly the unprocessed tail and the hash value is the fold over all complete blocks of everything given so far |
| `Sha1Hash.Sha1.Finalize` | algos_princeton/PA1/Assignment Results   Algorithms, Part I_files/spark.js:5 | the digest is the SHA-1 hash of everything given, and the object is new again |
| `Sha1Hash.Sha1.Hash` | algos_princeton/PA1/Assignment Results   Algorithms, Part I_files/spark.js:5 | one call of `hash` gives the SHA-1 hash of the whole message |
| `Sha1Hash.Sha1.HashChunks` | algos_princeton/PA1/Assignment Results   Algorithms, Part I_files/spark.js:5 | hashing in chunks of any lengths gives the hash of the whole message |
| `Sha1Hash.Sha1.Copy` | algos_princeton/PA1/Assignment Results   Algorithms, Part I_files/spark.js:5 | a copied hash object stands for the same message and shares no state |
| `BackboneEvents.Events.On` | algos_princeton/PA1/Solving the Backwash Problem_files/backbone.js:1 | `on` appends the handler to the event's list; nodes that already hold a handler keep handler and link |
| `BackboneEvents.OnPlainly` | algos_princeton/PA1/Solving the Backwash Problem_files/backbone.js:1 | the handler comes at the end of the event's list and no other event changes |
| `BackboneEvents.Events.Off` | algos_princeton/PA1/Solving the Backwash Problem_files/backbone.js:1 | `off` leaves in every concerned event the handlers that do not match, in order, and drops events without handlers; discarded nodes keep handler and link |
| `BackboneEvents.OffPlainly` | algos_princeton/PA1/Solving the Backwash Problem_files/backbone.js:1 | of a concerned event those handlers go whose callback is the given one, if one is given, and whose context is the given one, if one is given; the others stay as often as they were there, and events not concerned keep their list |
| `BackboneEvents.SurvivorsJoin` | algos_princeton/PA1/Solving the Backwash Problem_files/backbone.js:1 | the handlers that stay keep their order |
| `BackboneEvents.OffUndoesOn` | algos_princeton/PA1/Solving the Backwash Problem_files/backbone.js:1 | taking a new handler away again restores the registry exactly when no older handler of the event has the same callback and, if the new one has a context, the same context |
| `BackboneEvents.Events.OnThenOff` | algos_princeton/PA1/Solving the Backwash Problem_files/backbone.js:1 | the same for the linked lists: after `on` and `off` the object has the registry it had before exactly under that condition |
| `BackboneEvents.Events.Trigger` | algos_princeton/PA1/Solving the Backwash Problem_files/backbone.js:1 | whatever `on` and `off` calls the handlers make, exactly the handlers registered at the start are called, in order, then those of "all" registered at the start; the registry is then what these calls make of it one after the other |
| `BackboneEvents.DispatchPlainly` | algos_princeton/PA1/Solving the Backwash Problem_files/backbone.js:1 | these calls one by one: call i is for handler i of the event, without a name, and call |own|+i for handler i of "all", with the name of the event |
| `BackboneEvents.WithTailOk` | algos_princeton/PA1/Solving the Backwash Problem_files/backbone.js:1 | filling the sentinel and putting a new one behind it keeps every list of the registry linked, in order and ending in a sentinel of its own |
| `BackboneCollection.KeptAreApart` | algos_princeton/PA1/Solving the Backwash Problem_files/backbone.js:1 | no two models that `add` takes in share a client id or an id, and none shares one with the collection |
| `BackboneCollection.OthersAreTaken` | algos_princeton/PA1/Solving the Backwash Problem_files/backbone.js:1 | a model that `add` leaves out has a client id of the collection or of a model that gets in, or it has an id under which the collection or a model that gets in is filed |
| `BackboneCollection.ApartBatchIsKept` | algos_princeton/PA1/Solving the Backwash Problem_files/backbone.js:1 | a batch without such clashes comes in whole and in order, models without ids among them |
| `BackboneCollection.Collection.Filter` | algos_princeton/PA1/Solving the Backwash Problem_files/backbone.js:1 | looking models up in the four index objects and splicing the rejected positions out from the back leaves exactly these models, in order |
| `BackboneCollection.Collection.Add` | algos_princeton/PA1/Solving the Backwash Problem_files/backbone.js:1 | the new models are in the array at the asked position, counted as `splice` counts; length, client-id index and listened-to models agree with the array again, and the index by id is complete if it was; `add` is raised at exactly the positions of the new models |
| `BackboneCollection.InsertPlainly` | algos_princeton/PA1/Solving the Backwash Problem_files/backbone.js:1 | the position: the asked one, the end if none is asked for or there are fewer models, counted from the end if negative, and the start if that is out of reach |
| `BackboneCollection.RangePlainly` | algos_princeton/PA1/Solving the Backwash Problem_files/backbone.js:1 | the positions at which `add` is raised are the consecutive ones from the first new model on |
| `BackboneCollection.LookupFinds` | algos_princeton/PA1/Solving the Backwash Problem_files/backbone.js:1 | with complete indexes a reference leads to the member with the client id asked for, and only if there is none to the member with the id asked for, and to nothing else |
| `BackboneCollection.Collection.Remove` | algos_princeton/PA1/Solving the Backwash Problem_files/backbone.js:1 | every reference is looked up after the ones before it are gone; the rest stays in order and all redundant state agrees, except that a complete index by id loses the member with id "undefined" exactly when it stays and a model without id goes |
| `BackboneCollection.RemovalsPlainly` | algos_princeton/PA1/Solving the Backwash Problem_files/backbone.js:1 | after removing a list no member is left with the client id of a given model or a given key as its client id, and only members are gone that a given reference can mean |
| `BackboneCollection.RemovalKeepsIds` | algos_princeton/PA1/Solving the Backwash Problem_files/backbone.js:1 | one removal keeps the index by id complete if and only if the model has an id or no id is "undefined" |
| `BackboneCollection.Collection.Reset` | algos_princeton/PA1/Solving the Backwash Problem_files/backbone.js:1 | the collection has exactly the models of the batch without clashes, and everything agrees, also when the index by id was wrong before |
| `BackboneCollection.Collection.SetId` | algos_princeton/PA1/Solving the Backwash Problem_files/backbone.js:1 | every entry stays filed under its member's id, and a complete index by id stays complete if and only if the model is not a member, or the id is the old one, or it is an id that no member has and, if the model had none, no member has the id "undefined" |
| `BackboneCollection.RemovalSpoils` | algos_princeton/PA1/Solving the Backwash Problem_files/backbone.js:1 | a collection whose index by id is no longer complete after removing a model without an id |
| `BackboneCollection.SetIdSpoils` | algos_princeton/PA1/Solving the Backwash Problem_files/backbone.js:1 | a collection whose index by id is no longer complete after giving a member the id of another |
| `BackboneCollection.IdChange` | algos_princeton/PA1/Solving the Backwash Problem_files/backbone.js:1 | the two assignments to the index keep it complete if and only if the new id is safe in that sense, for every index and every id |

## Left out

- Update in place in the three thread programs: philosophers, pool and Ping/Pong are step systems on
  state values, because a step of one thread must be able to come between any two steps of another.
- Interrupts, random delays, thread creation and executor shutdown: no thread is interrupted in the code.
- Fairness: runs are bounded and can always go on, but nothing says which thread the scheduler picks.
- MapReduce.Engine.Execute: `execute` calls a mapper and a reducer that call the engine back. Here it
  emits what a function of the record or of the group returns, and every job's mapper and reducer, as
  methods on the engine, are proved to emit the same.
- Sockets, selectors, partial writes and closed channels: a write delivers its characters one by one.
- File reading, CSV, JSON and argument parsing, output formatting and printing: the models start from
  records and end with records. IndexError and TypeError for records of the wrong shape go with them.
- Floating point: amounts and prices are exact reals, so NaN, signed zero and rounding do not occur.
- Numbers beyond 2^53 in the hash object, where JavaScript is not exact: `Update` and `LoopStartExactly`
  are stated on exact integers.
- `extract`, `_xor4`, the codecs and the ciphers of the same JavaScript file.
- Sha1Hash.Sha1.Update: asks for less than 2^31 - 512 bits before the chunk. From there on the code cuts
  more blocks than there are (`CutsExactly`); what the block function makes of missing words is not modelled.
- Sha1Hash.Sha1.HashChunks: asks for the same before every chunk.
- Trackers with N below 1: the command line rejects them.
- The report methods of `yoda` that only pass a table on to `OrderedHashMap`, and `loadPrices`.
- The tables left behind when a loader fails on a book without a price: the exception leaves the
  constructor, so nobody sees the object.
- Integer overflow of counters and sums in the Java programs, and the order in which hash maps and
  Python dictionaries list their keys: every order is allowed.
- Event strings with several names, on which a dispatch goes through the names one after the other,
  and handlers that throw. A handler's nested `trigger` counts as the `on` and `off` calls made in it.
- Collections with a comparator, ids such as "constructor" that every JavaScript object has, silent
  changes of an id, models shared between collections, and handlers of `add` and `remove` events that
  change the collection while it raises them.
- The puzzle solver, the k-d tree and the other course programs under `algos_princeton`, which are
  neither concurrent nor data-processing code: they are outside the subject of this model.
- The remaining saved pages, scripts and small counting jobs.
