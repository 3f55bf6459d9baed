# Verified model of the mini web server's core

The project models the parts of the web server in which correctness is hardest to see and proves what they are
meant to guarantee. Each imperative C file is a class (or a method over arrays) whose methods are proved against a
value-level specification; each concurrent protocol is a transition system whose invariant is proved for every
reachable state, and a class whose methods refine its steps.

* **User index and user store** (`Trees`, `Pools`, `Rotations`, `Fixups`, `Splices`, `Ordering`, `Heights`,
  `UserIndex`, `Chains`, `StoreModel`, `UserStore`, `Search`, `Packing`, `Offsets`, `Names`, `UserData`). The
  red-black tree lives in a pool of nodes linked by slot numbers, with parent links and a shared NIL slot whose parent
  field is really written. A ghost algebraic tree mirrors the pool, and a path into it (a zipper) says where an
  operation is at work. Insertion, deletion and their fixups keep the tree red-black, linked and sorted; the same
  users are kept in a linked list, and list and tree answer alike over every run of additions and deletions that
  starts from distinct names (`UserStore.Store.Perform`, `UserStore.StartAndPerform`). The search page holds exactly
  the cards that fit, first come, first served, of the matches that its traversal of the tree counts.
* **Thread pool** (`PoolModel`, `PoolSafety`, `PoolTheorems`, `PoolProgress`, `PoolScaling`, `PoolCreation`, `Ring`,
  `ThreadPool`, `Sums`). One step per stretch of code under the mutex, with signals, spurious wake-ups, timeouts,
  scale-up, scale-down, shutdown and creation that fails half-way. No task is lost, duplicated or reordered, slots are
  not shared, and once the pool has opened no wake-up is lost, a pool left alone processes all it has accepted after a
  bounded number of steps, and so does one that is shut down. Creation that fails sets the flag and broadcasts without
  the mutex and may lose a wake-up; `PoolCreation` says exactly when.
* **Batch server** (`BatchModel`, `BatchServer`). Permit accounting of the semaphore, and what follows from it: the
  condition variable is never waited on, every worker leaves after a bounded number of steps, and every file is
  handled exactly if some worker could be created (or there is no file).
* **Route table** (`Probing`, `RouteClaims`, `RouteTable`). The open-addressed index, the prefix scan, and the exact
  conditions under which two documented claims hold.
* **Select loop** (`SelectModel`, `SelectServer`), **log rotation** (`LogModel`, `LogRotation`), **Base64** (`Base64`) and
  **percent decoding** (`UrlDecode`). `Basics` holds what several modules share.

Conventions. Pool offsets are slot numbers; slot 0 of the tree pool is NIL, and slot 0 of the list pool is the list
head, so 0 also encodes a null list offset (`Offsets` shows that different slots never overlap, so that equal offsets
mean equal slots). Results of system calls, clocks and the scheduler are parameters or nondeterministic steps.
Branches of the code that cannot be reached are `assert false`.

Where the code and its comments disagree, the model follows the code:

* prefix routes are scanned in insertion order, not longest first (`RouteClaims.LongestMatchIff` says exactly when
  that makes no difference; the default routes are such a table);
* an exact path with a wrong method is reported as 405 only if a route for the path lies on the probe path of the
  key asked for (`Probing.UnregisteredLookUp`, `RouteClaims.GetMissesPostRoute`), and a registered route can be
  answered with 405 (`RouteClaims.RegisteredYetWrongVerb`);
* a core size above 64 passes the check of the sizes and then always fails, because the slots are limited to 64 only
  afterwards (`PoolCreation.OpensIff`); and creation that fails after a first worker was created is meant to return
  null, but may wait for ever for a worker that missed its unlocked broadcast (`PoolCreation.LostWakeupIff`,
  `PoolCreation.SleepsForEver`);
* the search announces the number of matches it counted, but a match may be counted and its card not shown: whether
  512 bytes are free is asked before a subtree is entered, not again for the node after its left subtree
  (`Search.CountedNotShown`; `Search.CountedShownIff` says exactly when all counted matches are shown);
* the line limit of the log holds only while files may be rolled and the counter knows all lines
  (`LogModel.LimitHoldsIff`), so not after a log that is not empty was reopened;
* loading does not reject a repeated user name; from then on the list and the index may return different users of
  that name (`UserStore.TwinsDiffer`), and deleting that name keeps them in step exactly if they do not
  (`UserStore.Store.Delete`).

## Model

| member | source | states |
|---|---|---|
| UserIndex.Index.LeftRotate | src/user_index.c:41-55 | the pool then stores the rotated tree, parent links included; the inorder sequence and all slots outside the tree are unchanged |
| UserIndex.Index.RightRotate | src/user_index.c:57-72 | likewise, mirrored |
| Rotations.RotationStored | src/user_index.c:41-72 | the six link writes of a rotation, in either direction, turn the stored tree into its rotation and leave NIL alone |
| UserIndex.Index.InsertFixup | src/user_index.c:139-182 | from a tree with at most one red-red clash the loop ends in a red-black tree with the same inorder sequence; each turn is strictly nearer to the root |
| Fixups.RecoloredClimbs | src/user_index.c:145-149 | a red uncle: recolouring moves the only clash two levels up |
| Fixups.Raised | src/user_index.c:157-159 | a black uncle: the rotation at the grandparent removes the clash |
| UserIndex.Index.Insert | src/user_index.c:76-137 | a valid tree plus the last allocated slot becomes a valid tree whose inorder sequence has the new entry behind all entries that are not greater |
| UserIndex.Index.FindPlace | src/user_index.c:111-121 | the descent ends at the free place that splits the sequence into names not above and names above the new one |
| UserIndex.Index.FindPredecessor | src/user_index.c:353-373 | the slot of the greatest name strictly below the node's name, and the slot under which the search ends; 0 where there is none |
| Ordering.PartingMeans | src/user_index.c:353-373 | such a search parts the entries with smaller names from the others, so the last one before its end is the greatest with a smaller name |
| Ordering.InsertBetween | src/user_index.c:114-132 | hanging an entry where the descent ends is insertion into the sorted sequence |
| Ordering.InsertedBehind | src/user_index.c:114-132 | sorted insertion puts the entry behind all that are not greater and before all that are |
| UserIndex.Index.Transplant | src/user_index.c:230-238 | exactly the link writes that put v into u's place, the parent field of v included, be it NIL |
| UserIndex.Index.Minimum | src/user_index.c:224-228 | the leftmost slot of a subtree, with the path to it |
| UserIndex.Index.Delete | src/user_index.c:240-289 | -1 and nothing changed if the name is absent; otherwise a valid tree whose inorder sequence is the old one without exactly one entry of that name, whose slot is marked unused |
| UserIndex.Index.DeleteFixup | src/user_index.c:291-351 | from a tree one black node short the loop terminates in a red-black tree with the same inorder sequence |
| Fixups.ShortSibling | src/user_index.c:293-296 | the sibling looked at by the deletion loop is never NIL |
| Fixups.RedSibling | src/user_index.c:296-302 | a red sibling is rotated up and leaves a black sibling under a red parent |
| Fixups.PushedUpShort | src/user_index.c:303-306 | with two black nephews the shortage moves one level up |
| Fixups.NearNephew | src/user_index.c:308-314 | a red near nephew is rotated into the far position |
| Fixups.FarNephew | src/user_index.c:315-319 | with a red far nephew one rotation repays the shortage |
| Splices.SplicedSound | src/user_index.c:258-263 | replacing a node with at most one child leaves a red-black tree, or one that is exactly one black node short |
| Splices.SuccessorInorder | src/user_index.c:264-279 | replacing a node with two children by its successor removes just that node from the sequence |
| Splices.AdjacentReplaced | src/user_index.c:265-278 | the link writes for a successor that is the right child store that tree, and x's parent field points to the successor |
| Splices.DistantReplaced | src/user_index.c:265-278 | the link writes for a successor further down store that tree, and x's parent field is the successor's old parent |
| UserIndex.Index.Find | src/user_index.c:187-199 | a user of that name that the tree indexes, or 0 and no such user exists |
| UserIndex.Index.FindWithSteps | src/user_index.c:201-219 | the same, counting the nodes on the search path: 2^ceil(steps/2) <= size + 1 for hits and misses |
| Heights.DepthBound | src/user_index.c:201-219 | a node at depth d of a red-black tree means at least 2^ceil(d/2) - 1 entries |
| Names.LeqTransitive | src/user_index.c:194-196 | the order that strcmp induces is transitive, strictly so if one part is strict |
| Names.LessIsDictionary | src/user_index.c:117-128 | one name is less than another exactly if it is a proper prefix of it or has the smaller character at the first difference |
| UserStore.Store.constructor | src/user_store.c:85-148 | both pools with their sentinel in slot 0, an empty list and an empty index |
| UserStore.Store.ListAlloc | src/user_store.c:63-71 | the next slot, cleared and in use; 0 and nothing changed when the pool is used up |
| UserStore.Store.TreeAlloc | src/user_store.c:73-81 | likewise for the tree pool |
| UserStore.Store.NewTreeNode | src/user_store.c:349-358 | the early return after a failed tree allocation is unreachable: the two pools are used up in lockstep |
| UserStore.Store.Load | src/user_store.c:185-241 | the parsed users in front of the list, newest first, and in the index, as far as the pool reaches; repeated names are not rejected; the size counts a heading line too |
| UserStore.Store.Add | src/user_store.c:320-365 | list, index and size after an addition, with return code 1 for a taken name and -1 for a full pool, are those of the abstract store |
| UserStore.Store.Delete | src/user_store.c:369-401 | likewise for deletion, -1 for a missing name; list and index still hold the same users afterwards exactly if both searches found the same slot before, which is sure for a name that occurs once |
| UserStore.Store.Find | src/user_store.c:287-296 | the first slot in list order that bears the name, or 0 |
| UserStore.Store.FindIndex | src/user_store.c:428-430 | 0 exactly when the list search returns 0, else a listed slot with that name; the same slot as the list search if the name occurs once |
| UserStore.Store.Perform | src/user_store.c:320-401 | any run of additions and deletions on distinct names: contents and return codes are those of the abstract store, list and index stay in step and return the same slot for every name, and the size changes as the number of users does |
| UserStore.StartAndPerform | src/user_store.c:185-401 | the same from start-up on: after loading users of distinct names into an initialised store, as many as fit, and any run of additions and deletions |
| UserStore.SearchAgrees | src/user_store.c:287-296 | the same on values: with the same users in list and sorted tree, the two searches succeed together and agree on names that occur once |
| UserStore.TwinsDiffer | src/user_store.c:205-232 | two users of one name, inserted one after the other into an empty index as loading does, and in front of each other in the list: the two searches return different slots |
| UserStore.UsersInserted | src/user_store.c:349-359 | indexing one more entry adds exactly its user to the users of the tree |
| UserStore.LastIndexed | src/user_store.c:394-395 | after the list has dropped one user and the tree one entry, both hold the same users exactly if it was the same user |
| StoreModel.StepRefinesMap | src/user_store.c:320-401 | one operation keeps names distinct and acts on the map by name, with the same return code |
| StoreModel.AddMeans | src/user_store.c:320-365 | 1 exactly for a name that some user has, else -1 exactly for a used-up pool, else the user stands in front of all others |
| StoreModel.DeleteMeans | src/user_store.c:369-401 | exactly the first user of the name goes, and the others stay as they are; -1 exactly if there is none |
| StoreModel.RunRefinesMap | src/user_store.c:320-401 | over every run of additions and deletions the abstract store, which Store.Perform refines, answers as a map by name |
| StoreModel.RunBounds | src/user_store.c:63-81 | deletions never free slots: lifetime additions stay within the pool, and users present = users at start + additions - deletions |
| Offsets.OffsetsFit | include/user_store.h:19-20 | every slot's bytes lie at a positive offset that fits an int32_t, and overlap neither the header nor another slot of either pool |
| Search.StrContains | src/user_store.c:512-527 | true exactly when the query occurs in the text, letter by letter the same up to case |
| Search.LowerSame | src/user_store.c:522 | characters are taken for the same exactly if they are, or are the two cases of one letter, by their codes |
| Search.CaseIgnored | src/user_store.c:512-527 | changing the case of letters in text or query does not change whether it occurs |
| Search.CriteriaMatch | src/user_store.c:529-535 | true exactly when every non-empty field of the criteria occurs in the user's field |
| Search.MatchesMeans | src/user_store.c:529-535 | each criterion looks at the field of its name, and an empty one admits every user |
| Search.HitsCount | src/user_store.c:543-546 | a user is among the matches of some slots as often as the slots hold it, and not at all if it does not match |
| Search.SearchInorder | src/user_store.c:537-562 | the number of matches that the subtree counts, and as text after exactly the cards of those that fit, first come, first served |
| Search.UserStoreSearch | src/user_store.c:574-640 | -1 exactly if the heading does not fit; else the number of hits counted and exactly the text found in the buffer: heading, the cards that fit or the text for no results, and as much of the footer as fits |
| Search.HitsAreMatches | src/user_store.c:574-640 | the hits are matches in name order that a scan of the list finds, and no more than those |
| Search.CountedMeans | src/user_store.c:540-546 | what is counted is a subsequence of the matches in name order, and begins with all those before which more than 512 bytes are free |
| Search.CountedIffRoom | src/user_store.c:540 | with 512 bytes or less nothing of a subtree is counted, with more its root is, if it matches |
| Search.CardLength | src/user_store.c:547-558 | a result card takes more than 256 and less than 512 bytes |
| Search.CardShows | src/user_store.c:547-557 | the card is headed by the name, and phone, birth date, mobile and email stand behind their labels, in that order |
| Search.ShownMeans | src/user_store.c:558 | as much of a text is seen as leaves room for the terminating zero, and it counts as written only if that is all |
| Search.LeadingShown | src/user_store.c:540-558 | so a match before which more than 512 bytes are free is shown, too |
| Search.CountedShownIff | src/user_store.c:546-558 | all counted matches are shown exactly if their cards fit together |
| Search.CountedNotShown | src/user_store.c:540-558 | a left child and its parent match, more than 512 bytes are free, but not enough for both cards: two are counted and one is shown |
| Search.SmallRoom | src/user_store.c:540-558 | 513 free bytes are such a case |
| Search.AllCounted | src/user_store.c:537-562 | every match that a scan of the list finds is counted and shown if their cards leave more than 512 bytes free |
| Search.CountedShown | src/user_store.c:546-558 | every counted match is shown if the cards of what a scan of the list finds fit |
| Search.PageComplete | src/user_store.c:622-640 | the page up to the footer is then the heading with all cards, or with the text for no results |
| Packing.FittingFits | src/user_store.c:558 | the cards shown never fill the buffer, and keep their order |
| Packing.AllFitIff | src/user_store.c:558 | all of some texts end up in the buffer exactly if all of them fit together |
| PoolSafety.StepInv | src/thread_pool.c:120-373 | every step of every thread keeps slots, tasks, wake-ups and ownership of reserved slots consistent, the unlocked writes of a creation that fails included |
| PoolSafety.ReachableInv | src/thread_pool.c:120-373 | hence all of it holds in every reachable state |
| PoolTheorems.NoLostWakeup | src/thread_pool.c:157-186 | a queued task in an open pool always has a worker that is up or already woken |
| PoolTheorems.SleepersAreSpare | src/thread_pool.c:157-186 | if a worker sleeps un-signalled, there are no more queued tasks than woken workers, and a pool that has opened is not shutting down |
| PoolTheorems.WaitersAreSpare | src/thread_pool.c:197-203 | if a producer waits un-signalled, there are no more free places than woken producers |
| PoolTheorems.TasksConserved | src/thread_pool.c:196-230 | accepted = dequeued then queued, in order; accepted = queued + in flight + processed; accepted tasks are those of successful calls |
| PoolTheorems.SlotsExclusive | src/thread_pool.c:57-104 | num_workers counts the active slots and live workers and is at most max_size, live workers have different slots, core workers stay until shutdown |
| PoolTheorems.Drained | src/thread_pool.c:188-194 | when all workers have left, the queue is empty and the processed tasks are exactly the accepted ones |
| PoolTheorems.ShutdownProgress | src/thread_pool.c:359-373 | once nobody sleeps through the shutdown, every step but a new call or a repeated shutdown leaves strictly less to do |
| PoolTheorems.ShutdownEnds | src/thread_pool.c:359-373 | hence a run without such calls is never longer than the work it has done |
| PoolTheorems.ShutdownDrains | src/thread_pool.c:359-373 | where no such step is left, all workers have left and total processed = number of calls that returned 0 |
| PoolProgress.OwnProgress | src/thread_pool.c:155-357 | in an opened pool every step but a call, a shutdown and a wake-up without a signal leaves strictly less to do, though workers and producers wake each other |
| PoolProgress.OwnStepsEnd | src/thread_pool.c:155-357 | hence a run of such steps is never longer than the work it has done |
| PoolProgress.RestReached | src/thread_pool.c:155-357 | and always reaches a state where no such step is left |
| PoolProgress.RestIsDone | src/thread_pool.c:155-357 | there the queue is empty, every call of add_task has returned, also one that waited for room, and the processed tasks are exactly the accepted ones |
| PoolScaling.AcceptingSpawnsIff | src/thread_pool.c:321-353 | a task is accepted only by the call that brings it, while the queue has room and the pool is open; the call goes on to spawn exactly if there are fewer workers than slots |
| PoolScaling.SpawnsBeforeReturn | src/thread_pool.c:347-356 | over every run, such a call returns only after it has asked for a slot |
| PoolScaling.ReserveTakesSlot | src/thread_pool.c:57-72 | asking for a slot reserves an extra worker on a free slot exactly if there are fewer workers than slots, else only the call returns |
| PoolScaling.GrowsByOne | src/thread_pool.c:313-356 | so a call that meets no other ends with one more extra worker, ready to work |
| PoolScaling.WorkerTurnMeans | src/thread_pool.c:157-199 | a worker takes the oldest task if there is one; else it leaves exactly at a shutdown or, an extra one, after its timeout; else it is about to sleep |
| PoolScaling.LeavesOnlySo | src/thread_pool.c:96-104 | no other step makes a worker leave but the failing creation of its thread |
| PoolScaling.RunCounts | src/thread_pool.c:224-230 | over every run, the statistics count the finished tasks and those of them that failed |
| PoolCreation.OpensIff | src/thread_pool.c:251-295 | a pool can open exactly if there is a slot for each core worker after the slots were limited in number |
| PoolCreation.FailureLosesIff | src/thread_pool.c:286-295 | after a failed creation of a core worker a wake-up may be lost exactly if some core worker was created before |
| PoolCreation.LostWakeupIff | src/thread_pool.c:286-295 | over all runs from the start, that may happen exactly if there are at least two core workers to create |
| PoolCreation.SleepsForEver | src/thread_pool.c:157-186 | a worker that missed the broadcast sleeps on whatever the others do, unless a spurious wake-up gets it up |
| PoolCreation.AbandonedOutcome | src/thread_pool.c:384-396 | when all has run that can, every worker has left, so that the joins return, exactly if no wake-up was lost |
| PoolCreation.OpenedStays | src/thread_pool.c:286-306 | a pool that has opened never loses a wake-up that way |
| ThreadPool.Pool.constructor | src/thread_pool.c:246-278 | the fields before any worker exists, max_size capped at 64 |
| ThreadPool.Pool.Create | src/thread_pool.c:246-306 | whatever the workers do meanwhile: null exactly for sizes that creation refuses, failing memory, a core size above the 64 slots, or a thread that cannot be created; else an opened pool with its core workers, in a state that the protocol reaches |
| ThreadPool.Pool.SpawnCoreWorkers | src/thread_pool.c:286-295 | whatever the workers do meanwhile, the loop succeeds exactly if there are slots and threads for all core workers; the first failure makes creation fail |
| PoolCreation.MeanwhileSame | src/thread_pool.c:155-203 | until creation is over, no run of the workers changes queue, slots, counters or flag |
| ThreadPool.Pool.SetFlag | src/thread_pool.c:290 | the unlocked write of the flag as a step of its own |
| ThreadPool.Pool.WorkerTurn | src/thread_pool.c:155-203 | by the fields: a worker under the mutex dequeues the task at the head if the count is not zero, else leaves and frees its slot exactly at a shutdown or, an extra one, after its timeout, else is about to sleep; as the protocol says |
| ThreadPool.Pool.AddTaskTurn | src/thread_pool.c:313-349 | by the fields: a producer under the mutex is rejected exactly at a shutdown, waits exactly if the buffer is full, else writes its task at the tail, and spawns exactly if there are fewer workers than slots; as the protocol says |
| ThreadPool.Pool.CountProcessed | src/thread_pool.c:224-230 | one more processed task, and one more error if it failed |
| ThreadPool.Pool.TakeSlot | src/thread_pool.c:59-70 | the lowest free slot is taken and counted, or nothing changes |
| ThreadPool.Pool.SpawnExtra | src/thread_pool.c:351-353 | spawning an extra worker, when several producers may have decided to at once |
| ThreadPool.Pool.ThreadCreated | src/thread_pool.c:96-104 | a failed thread creation gives the slot back |
| ThreadPool.Pool.ShutDown | src/thread_pool.c:364-370 | shutdown as the protocol's step |
| Ring.Popped | src/thread_pool.c:196-199 | a circular buffer loses exactly the head of its queue |
| Ring.Pushed | src/thread_pool.c:333-335 | a circular buffer gains exactly one element at the end |
| Ring.WrapIsRemainder | src/thread_pool.c:198-334 | stepping an index around the buffer is the remainder that the code takes |
| BatchModel.StepInv | src/process_server.c:93-128 | every step keeps semaphore + permits held + workers gone = queued files + exit permits |
| BatchModel.PermitAccounting | src/process_server.c:404-407 | with all workers created, semaphore + permits held = queued files + live workers |
| BatchModel.NeverBlocked | src/process_server.c:107-120 | the condition wait is never reached |
| BatchModel.FilesTakenOnce | src/process_server.c:122-126 | files are dequeued in the order of the scan, none twice |
| BatchModel.NotStuck | src/process_server.c:101-128 | while a worker lives, some worker can go on |
| BatchModel.WorkersProgress | src/process_server.c:93-275 | each step of a worker leaves strictly less to do |
| BatchModel.JoinsReturn | src/process_server.c:440-443 | while the joins wait, no run is longer than the work it has done, and one that cannot go on has seen all workers leave |
| BatchModel.AllFilesHandled | src/process_server.c:440-451 | when the joins are over, every queued file was taken once, in order, and processed or reported as failed, exactly if some worker was created or there was no file |
| BatchModel.RunCounts | src/process_server.c:176-262 | over every run, the statistics count the processed and the unopened files, the errors are the latter and the bad requests, and there are as many workers as threads were created |
| BatchServer.Server.Scan | src/process_server.c:352-394 | the queue and the semaphore after the scan: the request files of the listing, in order, as many as fit |
| BatchServer.RequestSuffix | src/process_server.c:360-363 | the extension test accepts exactly the names that end in .req |
| BatchServer.RequestOf | src/process_server.c:352-394 | such a name that fits gives its path below requests/, any other name none |
| BatchServer.RequestsConcat | src/process_server.c:352-394 | and a listing gives the paths of its names in order |
| BatchServer.TruncatedMeans | src/process_server.c:352-394 | a path below 512 characters is kept whole, of a longer one the first 511 |
| BatchServer.Server.Count | src/process_server.c:255-262 | one more processed file and its bad requests, or one error for a file that is not opened |
| BatchServer.Server.PostExits | src/process_server.c:405-407 | one permit per worker is added |
| BatchServer.Server.TakeFile | src/process_server.c:104-128 | a worker takes the oldest file, or leaves when the queue is empty and the flag is set |
| Probing.HashKeyUnbounded | src/route_table.c:79-86 | the 32-bit overflow of the hash does not influence the slot |
| Probing.HashedSound | src/route_table.c:99-104 | after indexing the routes in order, each index has exactly one slot, met from its home slot through used slots only |
| Probing.ProbingEnds | src/route_table.c:117-127 | probing reaches an empty slot while one is unused |
| Probing.HitIsEntry | src/route_table.c:111-129 | a returned index is an entry with the method and path asked for |
| Probing.RegisteredLookUp | src/route_table.c:111-129 | a registered route is found exactly when no route for its path comes before it on its probe path, and reported as a wrong method otherwise |
| Probing.UnregisteredLookUp | src/route_table.c:111-129 | an unregistered key is reported as a wrong method exactly when a route for its path lies on its own probe path |
| Probing.LonePathFound | src/route_table.c:111-129 | a route that is alone for its path is always found |
| RouteClaims.LoneRouteWrongVerb | src/route_table.c:120-124 | with one route for a path, another method is reported as wrong exactly when it shares the home slot |
| RouteClaims.GetMissesPostRoute | src/route_table.c:9-11 | so the documented 405 does not come for GET on a path that only POST serves, whatever the path, in a table without further exact routes |
| RouteClaims.RegisteredYetWrongVerb | src/route_table.c:9-11 | a table in which another path pushes a registered route behind a route for its own path: HEAD / is answered with 405 |
| Probing.EarlierMet | src/route_table.c:99-104 | in every table, of two routes with one home slot the one registered first is met first |
| RouteClaims.SecondTwinShadowed | src/route_table.c:120-124 | so in every table, of two routes for one path with one home slot the second is answered with 405 |
| RouteClaims.TwinMethods | src/route_table.c:79-86 | two methods that share the home slot on every path, so that this happens whatever the path and the other routes |
| RouteClaims.LongestMatchIff | include/route_table.h:16-17 | first match is longest match for all requests exactly when no pattern of a method comes before a longer one that it begins |
| RouteClaims.DefaultsLongestFirst | src/request_handler.c:1459-1472 | the default prefix routes are ordered that way |
| RouteTable.Table.Add | src/route_table.c:141-203 | 0 and one more entry, or -1 and nothing changed for a table of 128 entries or a registered key; an entry that fits its fields is kept as given; the index is that of the entries |
| RouteTable.StoredMeans | src/route_table.c:184-193 | what fits fields of 256, 16, 64 and 32 bytes with a terminating zero is kept whole, of anything longer as much as fits |
| RouteTable.AddFindExact | src/route_table.c:141-308 | an exact route that was added is found as given, if no other exact route has its path |
| RouteTable.AddFindPrefix | src/route_table.c:141-308 | a prefix route that was added serves every path that it begins and captures the rest, if no exact route has that path and no earlier prefix route serves it |
| RouteTable.AddTwice | src/route_table.c:154-162 | a route that fits its entry is never added twice |
| RouteTable.AddKeepsDistinct | src/route_table.c:154-162 | keys stay distinct exactly if the truncated key was not there |
| RouteTable.Table.HashInsert | src/route_table.c:99-104 | linear probing stops at the first empty slot |
| RouteTable.Table.HashLookup | src/route_table.c:111-129 | the probing loop terminates with the lookup result |
| RouteTable.Table.BuildAllow | src/route_table.c:209-242 | the methods of the path joined by commas, as far as the field holds them |
| RouteTable.AllowValueMeans | src/route_table.c:209-242 | a list below 256 characters is given whole, of a longer one the first 255 |
| RouteTable.JoinMeans | src/route_table.c:235-240 | the methods are separated by a comma and a blank |
| RouteTable.VerbsForMeans | src/route_table.c:228-241 | a method is listed exactly if it is registered for the path |
| RouteTable.ListedOnce | src/route_table.c:224-241 | and only once, for distinct keys or as long as no more than the sixteen remembered methods are listed |
| RouteTable.LaterForgotten | src/route_table.c:229-233 | once sixteen methods are listed, a further one is listed again whenever it is not one of these |
| RouteTable.Table.PathMatchesPrefix | src/route_table.c:245-260 | a non-empty pattern that begins the path; pattern + captured = path if nothing is truncated |
| RouteClaims.MatchesMeans | src/route_table.c:245-260 | a pattern matches exactly if it is not empty and the path is the pattern and a tail |
| RouteTable.Table.Find | src/route_table.c:262-308 | an exact hit, else 405 for another method met on the probe path, else the prefix scan |
| RouteTable.Table.ScanPrefixes | src/route_table.c:286-307 | the first inserted entry that matches path and method; 405 exactly if some pattern matches but none with the method |
| RouteTable.Table.Validate | src/route_table.c:314-367 | 0 exactly for a table with known handlers and distinct keys |
| RouteTable.SaneMeans | src/route_table.c:321-362 | that is, no handler is -1 and no key occurs twice |
| SelectServer.Server.Accept | src/select_server.c:231-266 | a fresh descriptor gets a slot, enters the set and may raise the maximum exactly if accept succeeded and there are fewer clients than slots; otherwise nothing changes |
| SelectServer.Server.RoomIff | src/select_server.c:241-254 | the search for a free slot fails exactly when there are as many clients as slots |
| SelectServer.Server.SweepIdle | src/select_server.c:191-215 | exactly the clients idle for the timeout are closed |
| SelectServer.Server.CloseSlot | src/select_server.c:320-331 | closing keeps set, slots and maximum consistent |
| SelectServer.Server.LowerMax | src/select_server.c:324-329 | the loop finds the new maximum |
| SelectServer.Server.Serve | src/select_server.c:289-526 | the slot exists, so the branch for a missing one is dead; the client is closed or counted as its traffic demands |
| SelectServer.Server.Round | src/select_server.c:217-530 | though the maximum moves while it runs, the loop terminates and handles all ready descriptors in order |
| SelectModel.RoundOutcome | src/select_server.c:217-530 | in one round each ready client is served exactly once, the others are left alone, and the only new client is the accepted one, which is there if there was room |
| SelectModel.ServedMeans | src/select_server.c:289-526 | a ready client stays exactly for a request that arrives whole, is answered and is not its ten thousandth; then it is counted and its time renewed; no other client changes |
| SelectModel.WithoutIdleMeans | src/select_server.c:191-215 | a client goes in the sweep exactly when it was idle for five seconds |
| SelectModel.AcceptedMeans | src/select_server.c:231-266 | a new client comes in exactly if accept succeeded and there are fewer than 1024, with no requests counted |
| SelectModel.NewIsNotReady | src/select_server.c:218-221 | a descriptor accepted in a round is not taken for a ready client in it |
| SelectModel.InSetIff | src/select_server.c:231-266 | from descriptors below FD_SETSIZE a round leads to such descriptors exactly if the descriptor it lets in, if any, is below FD_SETSIZE: the code has no other guard |
| LogModel.RunRetainsSuffix | src/log.c:207-223 | over every run the retained lines, oldest file first, are a suffix of all lines |
| LogModel.RunRetainsAll | src/log.c:207-223 | nothing is lost while rolled files have room |
| LogModel.RunFileCount | src/log.c:207-223 | each rotation adds a file, up to max_roll rolled ones |
| LogModel.RunFills | src/log.c:248-271 | every file rolled in a run holds exactly max_lines lines, the current one at most that many, and line counts determine the number of rotations |
| LogModel.LimitHoldsIff | src/log.c:248-253 | the limit on the current file holds over all runs exactly if max_roll >= 1 and the counter knows all its lines |
| LogModel.NoLimitNoRotation | src/log.c:248-253 | without a positive limit no run ever rotates: all lines go to the current file |
| LogModel.RotationsOfOne | src/log.c:248-271 | a line is preceded by a rotation exactly if there is a limit and the counter has reached it |
| LogRotation.Log.ShiftRolled | src/log.c:207-217 | the descending renames move every rolled file up by one and drop only the oldest |
| LogRotation.Log.Rotate | src/log.c:193-233 | the file system then shows the rotated files, and the counter is zero |
| LogRotation.Log.WriteSystem | src/log.c:239-272 | one line more, after a rotation if one is due; a log that could not be reopened stays silent |
| LogRotation.Log.Reopen | src/log.c:142-158 | the files are kept and the count is forgotten |
| LogRotation.Log.constructor | src/log.c:66-86 | opening counts the lines found |
| Base64.Decode | src/base64.c:18-61 | the bytes that the accepted letters stand for, cut to the buffer, with a terminating zero; -1 exactly for a buffer size of 0 or less or a bad character met while there is room; no write at or behind dst_size |
| Base64.DecodesEncoding | src/base64.c:18-61 | decoding the encoding of section 4 of RFC 4648, with white space anywhere, gives the bytes back whenever they fit |
| Base64.ScanIgnoresSpaces | src/base64.c:26-29 | white space does not matter |
| Base64.NoSpacesMeans | src/base64.c:25-28 | white space is left out wherever it stands, and nothing else is |
| Base64.BytesOfSextets | src/base64.c:44-57 | regrouping sextets into bytes inverts splitting bytes into sextets |
| Base64.SextetsValue | src/base64.c:44-57 | three bytes and their four sextets are one number of 24 bits, and of a shorter group the missing bits are zero |
| Base64.LetterIs | src/base64.c:3-12 | the letters are those of table 1 of RFC 4648 |
| Base64.LettersAre | src/base64.c:34-39 | exactly these characters count as letters |
| Base64.SpacesAre | src/base64.c:25-31 | exactly blanks, tabs and line ends are white space, and the padding is the equals sign |
| Base64.EncodeLength | src/base64.c:18-61 | an encoding consists of groups of four, filled up with padding |
| Base64.TakeLetter | src/base64.c:41-49 | a partial group implies room for its bytes |
| UrlDecode.UrlDecodePath | src/request_handler.c:487-509 | the in-place two-pointer loop leaves the left-to-right decoding of the original string and touches nothing behind it |
| UrlDecode.SpellsMeans | src/request_handler.c:494-502 | an escape is a percent sign with the digits for the high and the low half of a byte, each as a capital or a small letter from ten on, and decodes to that byte |
| UrlDecode.DecodesEncoding | src/request_handler.c:487-509 | decoding any percent-encoding (section 2.1 of RFC 3986) of a string, with digits of either case, gives the string back |
| UrlDecode.NothingToDecode | src/request_handler.c:487-509 | a path in which no escape starts stays as it is, percent signs included |
| UrlDecode.DecodedLength | src/request_handler.c:487-509 | the output is never longer than the input |
| UrlDecode.PercentEncodeEncodes | src/request_handler.c:487-509 | the usual encoder produces such an encoding |
| UrlDecode.UrlDecode | src/request_handler.c:452-480 | the form value up to the first ampersand, cut to the buffer; -1 exactly for a buffer size of 0 or less or a bad escape met while there is room |
| UrlDecode.FormDecodesEncoding | src/request_handler.c:452-480 | decoding a form encoding, followed by anything from an ampersand on, gives the value back |
| UrlDecode.PercentEncodeFormEncodes | src/request_handler.c:452-480 | the usual encoder produces a form encoding too, and so does a plus sign for a space |
| UrlDecode.FormStopsAtBad | src/request_handler.c:463-470 | a percent sign that starts no escape makes the value an error, whatever was decoded before |

## Left out

- UserStore.Store.Add: starts from a parsed user; a line that cannot be parsed is refused with -1 before the store is touched.
- UserStore.Store.Load: starts from parsed users; line splitting and the recognition of a heading line are a parameter, and the size counts the heading line as the code does.
- ThreadPool.Pool.Create: on failure shows null without the joins that come first, which may not return, and without the steps of workers after the flag is set; when the joins return is stated in PoolCreation.
- ThreadPool.Pool.ShutDown: the joins and the release of memory in thread_pool_destroy are not modelled.
- PoolSafety.StepInv: says nothing about `peak_workers`, which is read outside the mutex that guards the counter.
- SelectServer.Server.Accept: assumes that accept returns a descriptor that is not open; the descriptor set is a set of integers, and SelectModel.InSetIff says when an fd_set can hold it.
- Handler names, realms and roles are stored but not interpreted; the exact routes of the default table are not listed.
- The shared memory region across processes: the root of the index is local to a process, so agreement of list and index is claimed for one process.
- Printing and formatting of the index, login lookups, timing comparisons and freeing of the region.
- Search.UserStoreSearch: heading, text for no results and footer of the page are parameters.
- The request handling between recv and send in the select loop, closing everything at its end, the epoll loop of the same shape, and process supervision.
- Log levels, time stamps, the access log (the same writer on its own file) and two logs that share a file.
- Sessions: removal there empties a hash slot without a mark, so lookup is not that of a map.
- Configuration readers, HTML pages, static files and clients: plumbing.
