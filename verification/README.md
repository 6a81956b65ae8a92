# A verified model of Kalava's common library

Kalava's `common/` directory is a C++ systems library. This project models its hardest parts in Dafny and
proves what they are for:

- the quicksorts of `qalgorithm.h`, whose two recursive ranges can share a cell: recursive, with an explicit
  stack, on three parallel arrays, and in parallel with a completion counter (`sorting.dfy`,
  `sorting_stack.dfy`, `sorting_in_place.dfy`, `parallel_sort.dfy`, `parallel_sort_limits.dfy`,
  `parallel_sort_progress.dfy`, `parallel_sort_nodes.dfy`, `parallel_accesses.dfy`, `parallel_accesses_end.dfy`);
- the reader/writer lock and the trigger of `qglobal.h`, and the hand-off of sockets in `qhttpserver.h`, as state
  machines over any number of threads with spurious wake-ups (`rwlock.dfy`, `queue.dfy`, `handoff.dfy`);
- red-black insertion on linked node objects (`red_black_shape.dfy`, `red_black_tree.dfy`);
- the greedy edit distance against all edit scripts (`edit_distance.dfy`);
- weighted round robin (`round_robin.dfy`); KMP (`kmp.dfy`); the calendar (`calendar.dfy`);
- the compiler of boolean expressions (`logical_parser.dfy`, `logical_exact.dfy`);
- the XML parser and printer, against a grammar of what is accepted (`xml_text.dfy`, `xml_parser.dfy`,
  `xml_grammar.dfy`, `xml_sound.dfy`, `xml_rejects.dfy`, `xml_round_trip.dfy`, `xml_exact.dfy`, `xml_document.dfy`);
- two MD5 implementations (`md5_transform.dfy`, `md5.dfy`, `md5_file.dfy`, `md5_known.dfy`);
- the chained hash table over a recycling allocator (`allocator.dfy`, `hash_table.dfy`) and the dense index
  (`dense_index.dfy`).

`common.dfy` and `arithmetic.dfy` hold what several of these share.

Where the source works step by step on arrays, objects or buffers, the model is imperative: methods and classes
proved against functions, and the theorems are lemmas about these functions or about runs. The protocols are
relations between states; each class method of a protocol is proved to be one of its steps.

Where the code does something that its documentation or a reader would not expect, the model follows the code:

- `addKey` of the dense index is documented to return 1 for a known key, and `deleteKey` to return 1 for a missing
  one. The code never looks for a known key and returns -2 for a missing one.
- `rearrangeIndex` returns -6 on an empty index, because a write of zero bytes does not report one item. For the
  same reason `get_md5_string` fails on every file whose length is a multiple of 64.
- `MD5Bits128` gives sixteen zeros for an empty input.
- Of several `!` before a word in a boolean expression only the last one negates the word; each one before it negates
  the value read last. So `!!a` means `!a`, and `a&!!b` means `!a&!b`.
- The buffer of the explicit-stack sort is too small from 515 cells on, and the default leaf size of the parallel sort
  is 1000.
- `quick_sort` can return while a worker has still to release a lock that lies in a local variable of the caller.
- A call of `quick_sort` can wait for ever when the idle list is shorter than the range less the leaf size plus three:
  every node is then in the hand of a worker that waits for another one.
- A closing tag on the top level of an XML text ends the parse without an error; closing tags may carry attributes, and
  `</a/>` counts as an empty element.
- The two-argument constructor of a tree node makes a temporary object instead of calling the other constructor, so the
  count of a new node is not 1 but what its memory held.
- With a server of weight zero the divisor of the weighted round robin is zero and its level never falls again; the
  call does not end if that level is above all weights, which an object whose level was never set can be in.

Integers are unbounded except where the source's width matters: the MD5 words and counters, the calendar
arithmetic and the length fields are modelled at their width.

## Model

| member | source | states |
|---|---|---|
| `Sorting.Sort` | common/qalgorithm.h:559-603 | what the recursive sort leaves in the array: a value for every input (so the recursion ends), same length, nothing moves outside the range |
| `Sorting.PartsAreSmaller` | common/qalgorithm.h:576-600 | for three or more cells both recursive ranges, `[m, lBegin-1]` and `[lEnd, n]`, are strictly smaller than the range, although they may share the meeting cell |
| `Sorting.SwapKeepsCuts` | common/qalgorithm.h:584-591 | exchanging an inversion keeps every ordered cut of every window around it; the reason why overlapping parts do no harm |
| `Sorting.MeetSplits` | common/qalgorithm.h:581-592 | when the cursors meet, everything before the meeting cell is at most the pivot and everything after it at least |
| `Sorting.PartitionOrders` | common/qalgorithm.h:576-595 | the cut between the two parts is ordered in the whole window, also when neighbours share cells with the range |
| `Sorting.SortSorts` | common/qalgorithm.h:559-603 | the range is sorted for every array, duplicates included |
| `Sorting.SortPermutes` | common/qalgorithm.h:1017-1079 | the multiset of whole rows (key, offset, flag) is kept: payloads travel with their keys |
| `Sorting.SortKeepsCuts` | common/qalgorithm.h:559-603 | sorting any range keeps every ordered cut of any window around it |
| `Sorting.PartsSort` | common/qalgorithm.h:614-664 | replacing the popped range by its two parts leaves the final array of the explicit stack unchanged |
| `Sorting.PartsPops` | common/qalgorithm.h:614-664 | the parts are worth strictly less than the range, in pops still to come: the explicit-stack loop ends |
| `SortingStack.ThreeCells` | common/qalgorithm.h:635-663 | three cells never leave two parts on the stack |
| `SortingStack.NeverMore` | common/qalgorithm.h:605-667 | a range of width w = lEnd-lBegin >= 3 never takes more than 2*(w-1) slots of `stack_buf`, whatever the array |
| `SortingStack.SometimesAllOfIt` | common/qalgorithm.h:605-667 | and for every such width there is an array that takes exactly that many |
| `SortingStack.StackFitsExactly` | common/qalgorithm.h:608-608 | the 1024 slots are enough for every array if and only if lEnd-lBegin <= 513 |
| `SortingInPlace.Recursion1K` | common/qalgorithm.h:559-603 | on an array: the array becomes exactly `Sort` of the old one |
| `SortingInPlace.Unrecursion1K` | common/qalgorithm.h:605-667 | with the 1024-slot stack, for ranges up to that exact width: the same final array as the recursive sort, every stack access inside the buffer, and the number of slots used is the one of the model |
| `SortingInPlace.Recursion1K2P` | common/qalgorithm.h:1017-1079 | on three parallel arrays: the rows become exactly `Sort` of the old rows |
| `SortingInPlace.PartitionRows` | common/qalgorithm.h:1044-1071 | the in-place partition of three arrays is the functional one: same rows, same meeting cell, same left end |
| `SortingInPlace.BinarySearch` | common/qalgorithm.h:62-83 | an index that is returned holds the key, on any array; on a sorted range -1 means that the key is not there |
| `ParallelSort.WorkDelta` | common/qalgorithm.h:2386-2444 | what each statement of a worker does to `flag`, the lists and its own hand: the credit `flag - 2*queued - in hand` and the number of list nodes do not change |
| `ParallelSort.AccountsNext` | common/qalgorithm.h:2361-2447 | the accounting is kept by every step of the caller and of every worker |
| `ParallelSort.PartsInPlace` | common/qalgorithm.h:2402-2436 | the two parts of a range that is in place are in place, though they may share a cell |
| `ParallelSort.CutsOfSplit` | common/qalgorithm.h:2402-2421 | after a partition every cut of the window is ordered or inside an outstanding range |
| `ParallelSort.InvNext` | common/qalgorithm.h:2361-2447 | every step of every thread keeps the invariant (accounting, ordered cuts, permutation) |
| `ParallelSort.RunInv` | common/qalgorithm.h:2361-2447 | the invariant holds in every state of every interleaving of any number of workers |
| `ParallelSort.ZeroMeansDone` | common/qalgorithm.h:2375-2376 | `flag` is zero only when no range is queued, in a hand or still to be queued |
| `ParallelSort.CompletionIsSorted` | common/qalgorithm.h:2361-2447 | in every interleaving, when `flag` is zero the window is a sorted permutation of the caller's array, nothing outside has moved, and no leaf sort has overrun its buffer; on the condition that leaves are narrow enough for it |
| `ParallelSort.LeavesAlwaysFit` | common/qalgorithm.h:2393-2394 | with a threshold of at most 514, or a range of at most 514 cells, no leaf sort overruns its buffer in any run |
| `ParallelSortLimits.OverrunIsReached` | common/qalgorithm.h:2393-2394 | for every other range and threshold there are an array and a run in which one does: the condition is exact (the default threshold of 1000 does not meet it) |
| `ParallelSort.ReturnedIsFinal` | common/qalgorithm.h:2375-2379 | after `quick_sort` has returned no worker touches the array or `flag` again |
| `ParallelSort.TouchedAfterReturn` | common/qalgorithm.h:2395-2397 | after the return a worker touches `org_info`, a local variable of the caller, exactly when it still holds its lock for the last leaf; it held it when `quick_sort` returned, and it is the only one |
| `ParallelSortLimits.EarlyReturn` | common/qalgorithm.h:2375-2397 | such a return before the unlock happens, for every array that is one leaf |
| `ParallelSortProgress.NoMoreLeaves` | common/qalgorithm.h:2402-2436 | the two parts of a wide range, though they can share a cell, can fall into no more leaves than the range: `lEnd-lBegin-threshold+2` at most |
| `ParallelSortProgress.LessToDo` | common/qalgorithm.h:2361-2447 | a measure that every statement of every thread decreases |
| `ParallelSortProgress.RunsAreBounded` | common/qalgorithm.h:2361-2447 | no run of any number of workers has more than 11*(2*leaves-1)+4 steps |
| `ParallelSortProgress.SomebodyGoesOn` | common/qalgorithm.h:2361-2447 | with a worker, and as long as `quick_sort` has not returned, some thread can take its next step, or the idle list is empty and a thread waits for a node |
| `ParallelSortProgress.ClaimsNext` | common/qalgorithm.h:2386-2444 | no step makes the outstanding ranges fall into more leaves |
| `ParallelSortProgress.StuckHasTooFew` | common/qalgorithm.h:2366-2440 | a call that is stuck before its return had fewer list nodes than `end-begin-threshold+3`, or none at all if it is one leaf |
| `ParallelSortProgress.MaximalRunReturns` | common/qalgorithm.h:2361-2447 | with a worker and at least that many nodes, every run that goes on for as long as it can ends with the return of `quick_sort` and a sorted permutation |
| `ParallelSortNodes.SinkingParts` | common/qalgorithm.h:2402-2436 | arrays of every width whose partition leaves one cell on the left and the same kind of array on the right |
| `ParallelSortNodes.FewerNodesGetStuck` | common/qalgorithm.h:2361-2447 | the number of nodes is exact: for every range, threshold and smaller number of nodes there are an array, a number of workers and a run in which every thread waits for ever |
| `ParallelAccesses.PutInverts` | common/qalgorithm.h:2410-2413 | each swap exchanges an inversion, and where it writes a cell shared with the left neighbour it exchanges equal keys |
| `ParallelAccesses.StepKeepsInv` | common/qalgorithm.h:2402-2436 | every single read and every single write of every range, in progress at any time, keeps the invariant |
| `ParallelAccesses.AccessesInArray` | common/qalgorithm.h:2402-2436 | no access of any run is outside the array |
| `ParallelAccesses.AccessesSort` | common/qalgorithm.h:2402-2436 | in every interleaving of the single reads and writes, duplicates included, the keys end up sorted and a permutation, although neighbours share cells without a lock |
| `ParallelAccessesEnd.NarrowNext` | common/qalgorithm.h:2402-2436 | every access of every process keeps the reason why parts are smaller than their range, although neighbours write shared cells in between |
| `ParallelAccessesEnd.LessToDo` | common/qalgorithm.h:2402-2436 | every single access decreases a measure over all ranges |
| `ParallelAccessesEnd.AccessesAreBounded` | common/qalgorithm.h:2402-2436 | no interleaving makes more than 8*(end-begin)^2 accesses |
| `ParallelAccessesEnd.MaximalRunSorts` | common/qalgorithm.h:2402-2436 | every run that goes on while some process can make an access leaves the window sorted and a permutation |
| `ReaderWriterLock.StepKeepsInv` | common/qglobal.h:2445-2491 | every critical section and every wake-up, spurious ones included, keeps exclusion and the no-lost-wake-up property |
| `ReaderWriterLock.RunInv` | common/qglobal.h:2445-2491 | `locks` is -1 with exactly one writer and no reader, or the number of readers with no writer, in every reachable state of any number of threads |
| `ReaderWriterLock.WriterIsAlone` | common/qglobal.h:2445-2491 | while a thread writes no other thread reads or writes |
| `ReaderWriterLock.AdmittedExactly` | common/qglobal.h:2445-2471 | a reader is let in exactly while nobody writes, a writer exactly while nobody holds the lock |
| `ReaderWriterLock.SleepersHaveAWaker` | common/qglobal.h:2445-2491 | whenever a thread sleeps some thread holds the lock or is on its way to the mutex; with `locks` at 0 one is on its way |
| `ReaderWriterLock.RWLock.EnterRead` | common/qglobal.h:2445-2457 | `rdlock` up to its first wait is a step of the protocol; it sleeps exactly when a writer holds the lock |
| `ReaderWriterLock.RWLock.ResumeRead` | common/qglobal.h:2451-2454 | the same after a wake-up |
| `ReaderWriterLock.RWLock.EnterWrite` | common/qglobal.h:2459-2471 | `wrlock` up to its first wait is a step; it sleeps exactly when the lock is held |
| `ReaderWriterLock.RWLock.ResumeWrite` | common/qglobal.h:2465-2468 | the same after a wake-up |
| `ReaderWriterLock.RWLock.Release` | common/qglobal.h:2473-2491 | `unlock` is a step, and which condition variable it signals is decided by the counters as in the code |
| `RingQueue.Queue.Push` | common/qqueue.h:107-124 | appends at the end unless the ring holds one item less than its size; then -1 and no change |
| `RingQueue.Queue.Pop` | common/qqueue.h:126-143 | takes the oldest item; -1 and no change on an empty ring |
| `RingQueue.Queue.Size` | common/qqueue.h:59-60 | the number of stored items |
| `HandOff.StepKeepsInv` | common/qhttpserver.h:765-801 | push, signal, wait, spurious wake-up and drain all keep the hand-off invariant |
| `HandOff.RunInv` | common/qhttpserver.h:765-801 | it holds in every reachable state of any number of producers and workers |
| `HandOff.NothingStranded` | common/qhttpserver.h:765-801 | with sockets queued and a worker asleep, a worker drains, or a producer is between push and signal, or the trigger is set and a woken worker is on its way |
| `HandOff.TakenInOrder` | common/qhttpserver.h:796-801 | what was taken is a prefix of what was sent and the rest is queued: each socket once, in order |
| `HandOff.Server.PushTask` | common/qhttpserver.h:765-767 | the push on the real ring is a step of the protocol |
| `HandOff.Server.Signal` | common/qglobal.h:2207-2220 | `signal` is a step |
| `HandOff.Server.Wait` | common/qglobal.h:2222-2234 | `wait` is a step; it sleeps exactly while the trigger is not set, and resets it otherwise |
| `HandOff.Server.TakeTask` | common/qhttpserver.h:801-801 | one round of the draining loop is a step |
| `RedBlackTree.RBTree.LeftRotateAt` | common/qredblacktree.h:353-373 | the pointer writes of the rotation turn the linked tree into the rotated tree, with all parent links and the sentinel intact |
| `RedBlackTree.RBTree.RightRotateAt` | common/qredblacktree.h:375-394 | the mirror image |
| `RedBlackTree.RecoloredFixable` | common/qredblacktree.h:253-257 | the red-uncle case moves the only possible violation two levels up and keeps the in-order sequence |
| `RedBlackTree.BalancedIsFixed` | common/qredblacktree.h:258-286 | the black-uncle cases, both sides, leave a lawful tree with the same in-order sequence |
| `RedBlackTree.RBTree.InsertFixup` | common/qredblacktree.h:246-291 | from a tree with at most one red-red edge above the new node to a lawful tree with a black root and the same in-order sequence; the loop ends |
| `RedBlackTree.RBTree.Insert` | common/qredblacktree.h:91-139 | the tree stays ordered and lawful; the return codes: -10 above 400000 nodes, 1 for a known key, -1 without memory, 0; and the map of inserts with values and counts: a covered key has the new value, a key that is counted instead has one more, a new key the count that its memory held |
| `RedBlackTree.RBTree.Search` | common/qredblacktree.h:208-223 | the value in the map of inserts; the out-parameter is left alone on a miss |
| `RedBlackTree.RBTree.PathsAreShort` | common/qredblacktree.h:208-223 | every path has at most 2*log2(n+1) nodes |
| `RedBlackTree.Build` | common/qredblacktree.h:91-139 | after any run of inserts from empty: valid, the map of the run with values and counts, and short paths |
| `RedBlackShape.LogarithmicHeight` | common/qredblacktree.h:91-139 | the height bound for every lawful tree |
| `EditDistance.Recurrence` | common/qdistance.h:125-141 | the greedy recursion satisfies the full recurrence that tries all three edits even when the first characters agree |
| `EditDistance.LeastEdits` | common/qdistance.h:125-141 | it is the least length over all scripts of insertions, deletions and substitutions at any positions |
| `EditDistance.ShortestScript` | common/qdistance.h:125-141 | a script of that length, constructed |
| `EditDistance.NoScriptIsShorter` | common/qdistance.h:125-141 | no script is shorter |
| `EditDistance.ZeroIffEqual` | common/qdistance.h:125-141 | zero exactly for equal strings |
| `EditDistance.Symmetric` | common/qdistance.h:125-141 | symmetric |
| `EditDistance.Triangle` | common/qdistance.h:125-141 | the triangle inequality |
| `RoundRobin.CycleIsFair` | common/qlbcluster.h:502-529 | one full cycle from any state picks server q exactly as often as its weight in units |
| `RoundRobin.WindowIsFair` | common/qlbcluster.h:502-529 | any window of as many calls as the units add up to returns server q exactly k[q] times |
| `RoundRobin.FairShare` | common/qlbcluster.h:502-602 | in weights: any window of sum(w)/gcd calls of the unit scheduler returns server q exactly w[q]/gcd times, from any state of the cycle |
| `RoundRobin.GcdIsGreatest` | common/qlbcluster.h:575-602 | the countdown finds the greatest common divisor of positive weights, and 0 as soon as one weight is 0 |
| `RoundRobin.RoundRefines` | common/qlbcluster.h:507-525 | a round on weights is a round on units: same server, same pick |
| `RoundRobin.ZeroWeightStarves` | common/qlbcluster.h:510-511 | once a weight is zero the level never falls, and in no later round is a server below it picked |
| `RoundRobin.StarvedCall` | common/qlbcluster.h:502-529 | a call in such a state keeps the level and returns a server that reaches it, so the others are never returned again |
| `RoundRobin.Balancer.MaxWeight` | common/qlbcluster.h:564-573 | the largest weight, 0 without servers |
| `RoundRobin.Balancer.GcdOfWeights` | common/qlbcluster.h:575-602 | the loops compute that divisor; -1 without servers |
| `RoundRobin.NeverEnds` | common/qlbcluster.h:507-525 | with a weight of zero and a level above all weights no server is ever picked: the call does not end |
| `RoundRobin.RoundProgress` | common/qlbcluster.h:507-525 | in all other states every round without a pick brings the end of the call nearer |
| `RoundRobin.CycleCall` | common/qlbcluster.h:502-529 | with positive weights and a level in the cycle the call is one call of the unit scheduler, within n rounds |
| `RoundRobin.IdleCall` | common/qlbcluster.h:508-523 | with all weights zero: -1 exactly when the cursor wraps, otherwise the next server although it is out of use |
| `RoundRobin.Balancer.GetServerWRR` | common/qlbcluster.h:502-529 | from every state where the call ends: a server whose weight reaches the level, or -1 (the cursor stays), which only happens when no server has weight |
| `RoundRobin.Balancer.GetServerInCycle` | common/qlbcluster.h:502-529 | the same method in the cycle: the next call of the unit scheduler, within n rounds, and the cycle is kept |
| `RoundRobin.Balancer.Serve` | common/qlbcluster.h:502-529 | a window of p calls on the object returns what the unit scheduler does; over sum(w)/gcd calls that is server q exactly w[q]/gcd times |
| `Kmp.NextKMP` | common/qfunc.h:150-165 | every entry of the table is the length of the longest proper border; the loop ends |
| `Kmp.Shift` | common/qfunc.h:135-142 | shifting the pattern by the table skips no match |
| `Kmp.FindKMP` | common/qfunc.h:131-148 | the least match at or after k, or -1 if there is none; an empty pattern is found at k |
| `Kmp.Find` | common/qfunc.h:118-128 | the least match, or -1 |
| `Kmp.FindsAgree` | common/qfunc.h:118-165 | both searches from 0 agree on all inputs |
| `XmlText.SkipWhiteSpace` | common/qxml.h:47-52 | the text from the first character that is no white space |
| `XmlText.CharClasses` | common/qxml.h:47-61 | blanks and name characters by their character codes |
| `XmlText.ParseName` | common/qxml.cc:22-34 | the longest name at the pointer |
| `XmlText.NameIsFound` | common/qxml.cc:22-34 | a valid name before another character is found as a whole |
| `XmlText.FoundIsName` | common/qxml.cc:22-34 | a name that is found is valid |
| `XmlText.ParseText` | common/qxml.cc:36-52 | the text up to the first end tag, and what follows it |
| `XmlText.TextIsFound` | common/qxml.cc:36-52 | a text in which the end tag cannot begin is found up to the tag |
| `XmlText.FreeOfCdataEnd` | common/qxml.cc:156-161 | `]]>` cannot begin inside a text without it and end in the `]]>` behind |
| `XmlText.StringEqual` | common/qxml.h:63-75 | equal strings, or equal in the first nChar characters |
| `XmlDocument.Document.ParseAttribute` | common/qxml.cc:131-151 | the loop-free parser of one attribute computes `ParseAttr` |
| `XmlDocument.Document.ParseAttributes` | common/qxml.cc:236-273 | the loop computes `ParseAttrs` and fails exactly when it sets the error |
| `XmlDocument.Document.Identify` | common/qxml.cc:320-389 | the kind of the next node and where its content begins; a text keeps the white space before it |
| `XmlDocument.Document.ElementParseDeep` | common/qxml.cc:207-234 | the element with its children or nothing, and the error that is set |
| `XmlDocument.Document.NodeParseDeep` | common/qxml.cc:64-128 | the loop with its appended children computes `ParseNodes`, and the error: the first one stays; what `ParseNodes` accepts is stated by `XmlRejects.LevelExactly` |
| `XmlDocument.Document.Parse` | common/qxml.cc:276-303 | children and error of the document; there is no error exactly if the text is an allowed spelling of the children |
| `XmlDocument.ToXML` | common/qxml.cc:390-425 | appends exactly the printed form to the buffer |
| `XmlRoundTrip.PrintedSample` | common/qxml.cc:390-425 | the printed form of an element with an attribute, a child element and a CDATA section, to the last character |
| `XmlRoundTrip.AttrsAreRead` | common/qxml.cc:236-273 | printed attributes are read back in order |
| `XmlRoundTrip.CloseIsRead` | common/qxml.cc:89-97 | `</name>` ends a level and hands its name to the parent |
| `XmlRoundTrip.PrintedIsRead` | common/qxml.cc:64-128 | a printed element before a tag or the end is read back as its normal form, whatever follows |
| `XmlRoundTrip.ParsePrint` | common/qxml.cc:276-425 | for every printable element, with whatever children, parsing the printed form gives its normal form and no error |
| `XmlExact.FaithfulIsNormal` | common/qxml.cc:390-425 | a tree is its own normal form exactly when each level is elements only, or one text that is not blank, or one CDATA, with open tags |
| `XmlExact.SameTreeComesBack` | common/qxml.cc:276-425 | the same tree comes back exactly for those trees |
| `XmlExact.ParsedAreSane` | common/qxml.cc:64-273 | every node built from any text has valid and distinct names, texts that are not blank and without `<`, CDATA without `]]>` |
| `XmlExact.RoundTripExactly` | common/qxml.cc:276-425 | among such elements exactly those without a `"` in a value survive printing and parsing |
| `XmlExact.ParsedElementsComeBack` | common/qxml.cc:276-425 | the same for every element, at any depth, of every parsed text |
| `XmlExact.StrayCloseIsSilent` | common/qxml.cc:89-97 | a closing tag on the top level ends the document without an error, whatever follows |
| `XmlComplete.TagRead` | common/qxml.cc:207-273 | every spelling of a tag, with blanks, either kind of quotes and any allowed attributes, is read as its name, attributes and kind |
| `XmlComplete.NodeRead` | common/qxml.cc:64-234 | elements, comments, declarations, CDATA sections and other `<!..>` marks are read as what their spelling means, whatever follows |
| `XmlComplete.LevelRead` | common/qxml.cc:64-128 | every allowed spelling of a level is read as the nodes it means, and ends as it is finished |
| `XmlSound.AttrsOf` | common/qxml.cc:236-273 | attributes that are accepted are spelled so: valid and different names, blanks only where they are allowed, values without their quote |
| `XmlSound.NodeOf` | common/qxml.cc:64-234 | a node that is kept is an allowed spelling, an element one whose end tag has the name of its start tag |
| `XmlSound.LevelOf` | common/qxml.cc:64-128 | a level that ends without an error is an allowed spelling of its nodes |
| `XmlRejects.LevelExactly` | common/qxml.cc:64-128 | a level is read as these nodes, up to this closing tag or the end of the text, if and only if the grammar spells it so |
| `XmlRejects.AcceptedExactly` | common/qxml.cc:276-303 | a text parses without an error, to these nodes, if and only if the grammar spells them so |
| `XmlRejects.OneReading` | common/qxml.cc:64-128 | the grammar is unambiguous |
| `XmlRejects.MismatchIsAnError` | common/qxml.cc:104-117 | an element ended by a tag of another name, whatever its body and whatever follows: XML_ERROR_MISMATCHED_ELEMENT, and no node |
| `XmlRejects.OpenAtTheEnd` | common/qxml.cc:82-103 | an element that is open at the end of the text is an error |
| `XmlRejects.ErrorBehindNode` | common/qxml.cc:64-128 | an error behind a node stops the level there |
| `XmlRejects.ErrorInElement` | common/qxml.cc:207-234 | an error inside an element stops the level of the element |
| `XmlRejects.UnendedMark` | common/qxml.cc:153-205 | comments, CDATA sections, declarations and other marks without their end, each with its error |
| `XmlRejects.TextAtTheEnd` | common/qxml.cc:153-173 | a text that no tag follows |
| `XmlRejects.RepeatedAttribute` | common/qxml.cc:246-254 | an attribute name that the tag has already |
| `XmlRejects.BrokenTag` | common/qxml.cc:240-271 | a tag that ends with the text or goes on with a character that starts no attribute and ends no tag |
| `Md5Streaming.Context.Update` | common/qmd5.h:104-136 | for any split into updates: the state is the fold over the complete blocks, the buffer holds the rest, `count` is the length in bits modulo 2^64 |
| `Md5Streaming.Context.Final` | common/qmd5.h:141-164 | the digest of everything given, padded as in sections 3.1 and 3.2 of RFC 1321; the context is wiped |
| `Md5Streaming.CountAdds` | common/qmd5.h:111-115 | the two 32-bit words with their carry add up modulo 2^64 |
| `Md5Streaming.FirstBlock` | common/qmd5.h:121-123 | the block completed in the buffer is the next block of the message |
| `Md5Transform.StepFormsAgree` | common/qmd5file.h:30-33 | the one-expression step and the step in three assignments are the same function |
| `Md5Transform.TransformsAgree` | common/qmd5.h:168-257 | the two block transforms, from two tables of 64 steps, are the same function; `Md5Known` says which one |
| `Md5Digests.Bits128` | common/qmd5.h:333-346 | the digest of the input, whose known values are those of RFC 1321; sixteen zeros for no input |
| `Md5Known.FChooses` | common/qmd5.h:56-56 | F takes the bits of y where x is set and those of z elsewhere |
| `Md5Known.GChooses` | common/qmd5.h:57-57 | G takes the bits of x where z is set and those of y elsewhere |
| `Md5Known.HIsParity` | common/qmd5.h:58-58 | H is set where an odd number of the three is |
| `Md5Known.IComplements` | common/qmd5.h:59-59 | I is the complement of y where x is set or z is clear, and y elsewhere |
| `Md5Known.TableRule` | common/qmd5.h:168-257 | basic function, message word and rotation of each of the 64 steps by the formulas of section 3.4 of RFC 1321 |
| `Md5Known.DigestA` | common/qmd5.h:333-346 | MD5 of `a` in sixteen bytes, as in section A.5 of RFC 1321 |
| `Md5Known.DigestAbc` | common/qmd5.h:333-346 | MD5 of `abc` |
| `Md5Known.DigestDigits` | common/qmd5.h:333-346 | MD5 of eighty digits, a message of two blocks |
| `Md5Digests.DigestsAgree` | common/qmd5file.h:56-132 | the two transforms give the same digest of every message |
| `Md5Digests.TailIsFold` | common/qmd5file.h:159-173 | one or two last blocks, in both padding branches, complete the fold over the padded message |
| `Md5Digests.HexOfWords` | common/qmd5file.h:177-177 | the printed byte-reversed words are the digest bytes in order, two digits each |
| `Md5Digests.HexIsRead` | common/qmd5file.h:177-177 | a decoder with its own digit values, high digit first, reads any printed bytes back |
| `Md5Digests.WordsAreRead` | common/qmd5file.h:177-177 | the text has 32 characters out of `0123456789abcdef` and reads back as the sixteen bytes of the words |
| `Md5Digests.FileDigest` | common/qmd5file.h:148-173 | -1 exactly for lengths that are multiples of 64; otherwise the blocks counted modulo 2^32 and the tail, which below 2^38 bytes is the digest of the content |
| `Md5Digests.GetMd5String` | common/qmd5file.h:136-180 | fails exactly when the file is missing or its length is a multiple of 64; otherwise 32 lower-case hexadecimal digits that read back as those words, below 2^38 bytes as the same digest as the buffer MD5 computes |
| `Md5Digests.WrappedIsDigest` | common/qmd5file.h:148-173 | below 2^38 bytes the 32-bit block counter does no harm |
| `RecyclingAllocator.Allocator.Alloc` | common/qallocator.h:193-243 | a chunk nobody holds, the latest freed one first; none exactly when all chunks are held |
| `RecyclingAllocator.Allocator.ChunksDoNotOverlap` | common/qallocator.h:236-240 | the bytes of a chunk lie inside its block and no two chunks share a byte |
| `RecyclingAllocator.Allocator.Facts` | common/qallocator.h:193-243 | all chunks given out are such chunks, as many as `mAllocNum - mRecycleNum` |
| `RecyclingAllocator.Allocator.Free` | common/qallocator.h:246-254 | the chunk goes to the front of the free list, which stays a chain of distinct chunks apart from those given out |
| `RecyclingAllocator.Allocator.Reset` | common/qallocator.h:257-267 | every chunk is available again |
| `HashSearch.AddedIsSound` | common/qhashsearch.h:90-138 | a new chunk at the front of its chain keeps the table sound |
| `HashSearch.BucketIsRemainder` | common/qhashsearch.h:323-328 | the bucket is the remainder of the absolute value of the key |
| `HashSearch.RemovedIsSound` | common/qhashsearch.h:212-235 | unlinking a cell, at the front or behind another, keeps the table sound without that chunk |
| `HashSearch.Counted` | common/qhashsearch.h:90-235 | there are as many keys as chunks in use |
| `HashSearch.EachKeyOnce` | common/qhashsearch.h:356-393 | in traversal order every key comes exactly once |
| `HashSearch.Table.AddKey` | common/qhashsearch.h:90-138 | 1 and no change for a known key, -1 exactly when the table is full, otherwise one more entry; without data the chunk keeps its old bytes |
| `HashSearch.Table.SearchKey` | common/qhashsearch.h:147-168 | 0 exactly for the keys of the map, and the place of the data |
| `HashSearch.Table.UpdateKey` | common/qhashsearch.h:178-204 | overwrites the data of a known key and of no other |
| `HashSearch.Table.DeleteKey` | common/qhashsearch.h:212-235 | the key is gone, its chunk is the next to be handed out |
| `HashSearch.Table.Clear` | common/qhashsearch.h:338-353 | an empty table over the same memory |
| `HashSearch.Table.Run` | common/qhashsearch.h:90-355 | any run of operations answers exactly as the same calls on a finite map, and leaves that map; `data_num_` is `mAllocNum - mRecycleNum` and chains and free list share no chunk throughout |
| `HashSearch.Table.Traverse` | common/qhashsearch.h:368-393 | the next entry in bucket order with its data and length; -1 after the last |
| `HashSearch.Table.TraverseAll` | common/qhashsearch.h:356-393 | a full traversal yields every key exactly once |
| `LogicalParser.InToPost` | common/qlogicalparser.h:46-78 | the loops compute `Postfix` |
| `LogicalParser.Parser.DoOperator` | common/qlogicalparser.h:134-175 | one operator on the operand stack; without its operands the stack is cleared |
| `LogicalParser.Parser.CalRun` | common/qlogicalparser.h:109-127 | the bottom of the final stack; the stack is empty again on any input; what a word pushes is stated by `LogicalParser.WordValue` |
| `LogicalParser.Parser.Parse` | common/qlogicalparser.h:33-39 | a word alone is true exactly if it is `UK`, the key or one of the meanings; a formula has the value that the code gives it, and the value that is meant if no word has an even number of `!`; on any text the stack is empty again |
| `LogicalParser.CompiledMeaning` | common/qlogicalparser.h:33-175 | for every formula of words joined by `&` and `|`, each word with any number of `!`: conversion and machine give exactly the value of a left-to-right reading in which the last `!` negates the word and each one before it the value read last |
| `LogicalParser.CompiledValue` | common/qlogicalparser.h:33-175 | if every word has no `!` or an odd number of them that is the value under precedence `!` over `&` over `|` |
| `LogicalParser.WordValue` | common/qlogicalparser.h:109-127 | a word alone leaves 1 exactly if it is `UK`, equals the key or is among the meanings |
| `LogicalParser.OnlyTestsMatter` | common/qlogicalparser.h:109-127 | on any tokens the machine depends on key and meanings only through these three tests of each token |
| `LogicalParser.ValueByTests` | common/qlogicalparser.h:33-175 | the value of a formula depends on them only through these tests of its words |
| `LogicalParser.LoneWord` | common/qlogicalparser.h:53-63 | a lone word with n times `!` is evaluated as it is meant exactly when n is zero or odd |
| `LogicalParser.EarlierValueNegated` | common/qlogicalparser.h:53-63 | an even number of `!` negates what came before: `a&!!b` is read as `!a&!b` |
| `LogicalExact.UnderstoodExactly` | common/qlogicalparser.h:33-175 | for every formula whose words are all different, the code gives the value that is meant, whatever matches, if and only if every word has no `!` or an odd number of them |
| `DenseIndex.ReadStored` | common/qdenseindexmanager.h:170-180 | a stored record reads back whatever is appended later; only a buffer that is too small fails |
| `DenseIndex.StoredLayout` | common/qdenseindexmanager.h:170-180 | the bytes of a record: eight times 0xbb, the length with its low byte first, the data, eight times 0xee |
| `DenseIndex.Manager.AddKey` | common/qdenseindexmanager.h:158-189 | the return codes and one more record at the end of the file; a known key is not refused |
| `DenseIndex.Manager.RearrangeIndex` | common/qdenseindexmanager.h:192-226 | the index is in order and holds the same rows; -6 for an empty index |
| `DenseIndex.Manager.SearchKey` | common/qdenseindexmanager.h:233-268 | the answer is about a record of this key; on an index in order -2 means that the key was never added; no read error can occur |
| `DenseIndex.Manager.DeleteKey` | common/qdenseindexmanager.h:273-284 | marks a record of this key and no other; -2 on an index in order means that there is none |
| `DenseIndex.Manager.Perform` | common/qdenseindexmanager.h:158-284 | every call is a step of the abstract state when no key is added twice |
| `DenseIndex.Manager.Run` | common/qdenseindexmanager.h:158-284 | any sequence of calls on a new index that adds no key twice is a run |
| `DenseIndex.EntryStays` | common/qdenseindexmanager.h:158-284 | in any run the entry of a key keeps its bytes, and is deleted from the first successful deletion on, for good |
| `DenseIndex.SearchAfterRearrange` | common/qdenseindexmanager.h:158-284 | in any run, after a rearrangement and before the next addition: -2 exactly for keys never added, -3 exactly for deleted ones, otherwise exactly the stored bytes |
| `Calendar.Greg2JulIsJulianDay` | common/qdatetime.h:171-186 | the 32-bit arithmetic does not wrap in the range |
| `Calendar.ValidExactly` | common/qdatetime.h:149-156 | which dates are valid, with the lengths of the months, the leap rule, the first day and the short years written out |
| `Calendar.KnownDays` | common/qdatetime.h:171-186 | the day numbers of 14 September 1752 and of 1 January 1970 |
| `Calendar.NextDayIsNext` | common/qdatetime.h:149-186 | the next calendar day under `isLeapYear` and `monthDays` is valid and has the next day number |
| `Calendar.DayNumbersCountDays` | common/qdatetime.h:171-186 | n days later means a day number n greater |
| `Calendar.SameDaySameDate` | common/qdatetime.h:171-186 | different dates have different day numbers |
| `Calendar.Jul2Greg` | common/qdatetime.h:188-208 | the successive assignments give a valid date with exactly this day number |
| `Calendar.QDate.SetDate` | common/qdatetime.h:87-95 | the day number of a valid date, a year up to 99 standing for 1900 plus it; an invalid one changes nothing |
| `Calendar.QDate.GetDate` | common/qdatetime.h:97-98 | undoes `setDate`: the only date in range with this day number |
| `Calendar.QDate.AddDays` | common/qdatetime.h:100-105 | forward and backward: lands on the date that many calendar days away |
| `Calendar.QDate.DaysTo` | common/qdatetime.h:107-108 | counts the calendar days between two dates in either order: the later one is reached from the earlier one in exactly that many |

## Left out

- ParallelSort.CompletionIsSorted: the thresholds are at least 2, the idle list already holds its nodes, and one call of `quick_sort` is in progress; here each partition and each leaf sort is one step.
- ParallelAccesses.AccessesSort: keys are integers, so that equal keys cannot be told apart; the lists and `flag` are those of the coarser model.
- ParallelSortNodes.FewerNodesGetStuck: the number of nodes is exact over all arrays and numbers of workers; the least number for one given number of workers is not computed.
- HandOff.NothingStranded: the exit flag of the worker loop and exceptions while a socket is served are not modelled.
- RedBlackTree.RBTree.Insert: keys and values are integers.
- RoundRobin.Balancer.GetServerWRR: weights are not negative and there is a server; without one the code divides by zero.
- RoundRobin.FairShare: the weights do not change during the window.
- LogicalParser.CompiledMeaning: texts that are no formula (an operator without a word) are covered by the machine only.
- Kmp.FindKMP: the table must be the one built from the pattern.
- HashSearch.Table.AddKey: a bucket that a caller gives is the one of the key, a null data pointer is an absent value, and memory for a block is always there.
- HashSearch.Table.SearchKey: a bucket that a caller gives is the one of the key.
- HashSearch.Table.UpdateKey: the same.
- HashSearch.Table.DeleteKey: the same.
- RecyclingAllocator.Allocator.Alloc: memory for a block is always there.
- HashSearch.Table.Traverse: for a table that is not changed during the traversal; it must not be called again after -1, where the code would follow a null pointer.
- DenseIndex.Manager.Run: for runs that add no key twice; with a key added twice `searchKey` answers for one of its records, as its own contract says.
- DenseIndex.Manager.Perform: the same.
- DenseIndex.Manager.AddKey: file operations succeed, so the codes -3 to -7 do not occur.
- DenseIndex.Manager.RearrangeIndex: the contents of the index file, and loading it in `init`, are not modelled; file operations succeed.
- Md5Digests.GetMd5String: reads of existing bytes succeed.
- Md5Streaming.Context.Update: a single update is shorter than 2^32-63 bytes; beyond that the index of the loop wraps.
- Md5Digests.Bits128: the same bound, for the one update it makes.
- Calendar.Jul2Greg: from 1752-09-14 and while 4*(jd-1721119) stays below 2^31.
- Calendar.QDate.GetDate: the same range.
- XmlDocument.Document.NodeParseDeep: children are a list value; the parent, previous and next links of the nodes, `Unlink` and the destruction of nodes are not modelled, and a text ends at its first zero byte.
- XmlDocument.ToXML: the buffer is a growing string; the public wrapper and the printed declaration are not modelled.
- 32-bit overflow of index sums such as `lBegin+lEnd` is not modelled.
- `QRedBlackTree::remove`, the 2K and 3K sorts, `Q_Quick_Sort_3`, `Q_Merge_Sort` and `Q_Quick_Sort`: their code does not keep the property they are for.
- The round-robin variants without weights, the hashing schedulers and the floating-point weight formula.
- Variable-length hash entries, `save` and `load`, disk caches and store managers: bound to files.
- Buffers, serialization, bitmaps, vectors, codecs and similarity measures: they would only add easier members.
- Sockets, databases, compression, mail, logging and generated SOAP code: calls into code that is not here.
