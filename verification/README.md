# Verified models of the Bluetooth common services and audio HAL

Models, in Dafny 4.11, of the parts of the Android Bluetooth stack whose
correctness depends on state that lives across calls or threads, with proofs of
what those parts promise. `dafny verify dfyconfig.toml` checks the whole project.

- **LRU cache** (`LruModel`, `Lru`). A list of nodes at stable locations and an
  index of iterators, proved against a list; over whole histories the list is
  shown to hold exactly the most recently touched keys.
- **Metric ids** (`MetricIdModel`, `MetricIdInit`, `MetricIdLife`, `MetricIdRecency`,
  `MetricIdAllocator`). Two caches, the set of ids in use and the wrapping cursor:
  when the search ends, when ids are unique, which device a full cache gives up, how
  long a device keeps its id, and how the callbacks mirror the paired devices to disk. Close keeps the callbacks, so
  devices can be paired while the allocator is closed; Init is modelled from every
  such state, and lives are any sequences of Init, Close and the calls in between.
- **Module registry** (`ModuleGraph`, `ModuleRegistry`). Recursive start in
  dependency order and stop in reverse, with the trace of what happens to modules.
- **Message loop thread** (`MessageLoopThread`). A state machine over any number
  of callers and the threads they start; safety and progress in every interleaving.
- **Repeating timer** (`RepeatingTimer`, `TimerProtocol`). The deadline arithmetic
  on fixed-width integers, and the cancellation protocol as a state machine.
- **Audio HAL** (`AudioPort`, `AudioParams`, `AudioStream`, `AudioEffects`). The port
  state machine, the parameter text, and an output stream used by any number of
  threads: what may happen, what each operation brings about, and what it returns.
- **Metrics** (`LeakyBondedQueue`, `A2dpMetrics`, `MetricsModel`, `MetricsSessions`,
  `MetricsLogger`). Bounded queues, session segments, aggregation, and dumps that are
  told by the log of operations alone.
- **LE Audio host** (`LeAudioHost`). The start-request handshake.

Code that updates fields is a class whose methods are proved against functions on
values; the theorems are about those functions and about runs of them. Protocols
between threads are state machines: a section under a mutex, a read of a shared
state, a wait or a callback is one step, and a run is any sequence of enabled steps.

## Where the code does less than it promises

- `Init` of the id allocator accepts maps that break uniqueness: two devices share an
  id; or, when devices were paired after a Close, the map gives the id of one of those
  to another address, overrides an address without giving its old id to anybody, or
  needs so much room that an eviction takes back an id just loaded.
  `InitUniqueIff` and `InitUniqueWithRoom` say exactly which maps are good, and
  `UniqueThroughoutIff` says it for whole lives;
  `SharedIdBreaksUniqueness` and `ClashAfterClose` are inputs that are not.
- The search for a free id is meant always to end. One search ends exactly when some
  valid id is free (`SearchEndsIff`). All searches of all runs from a state end
  exactly when at most 333 taken ids belong to no device (`EveryRunReturnsIff`), and
  only Init makes ids stale: those of devices whose address its map overrides without
  giving the old id to anybody (`InitStaleExactly`, `EveryRunReturnsAfterInitIff`).
  `IdsCanRunOut` is an input.
- A `ShutDown` of the message loop thread that returns at once promises more than it
  gives: another shutdown may still be under way (`RunningAfterShutDownIff`,
  `SecondShutDownReturnsEarly`), and one that comes while the thread is starting is
  lost (`LostShutDownIff`, `LostShutDown`).
- A `StartUp` can return to a thread that is not up yet or no longer running
  (`StartUpPromise`, `SecondStartUpReturnsEarly`, `StartUpReturnsToStopped`).
- A queued `Cancel` of the repeating timer kills a schedule made after it
  (`ScheduleSurvivesIff`, `StaleCancelKillsSchedule`).
- `SchedulePeriodic` keeps the API mutex while it waits for the cancellation; a task
  on that loop that calls the timer meanwhile makes it wait for ever, and holds up
  every CancelAndWait on a loop that does the same (`ScheduleReturnsIff`,
  `ScheduleDeadlocks`, `CallReturnsIff`).
- `IsScheduled` of the timer is true with nothing pending after the scheduled loop
  went down and came back (`IsScheduledExactly`, `ScheduledWithNothingPending`).
- `out_write` can write to a port that is not started, when a control result arrives
  between the comparisons of `out_resume` (`WriteDataAfterStarted`,
  `WritesWithoutStarted`). Callbacks do not take the stream mutex, so it does not help.
- An LE Audio start request stays pending when its confirmation comes between the
  comparisons, or when the session stops inside the callback (`PendingExactly`); the
  data path can then be opened twice (`OpensOnceIff`).
- `Dequeue` is documented to return null on an empty queue, but is undefined there.
- The presented-frames counter is documented as never reset, but closing and exiting
  reset it (`PresentedGoesBackIff`, `PresentedGoesBack`), and it counts the bytes
  requested, not those written (`CountsWrittenIff`, `CountsMoreThanWritten`).
- `Reset` of the metrics logger keeps the headset connection counts.
- A session that ends before it began is logged with a duration that wraps
  (`DurationIsElapsedIff`).
- The last loop of `Build` tests the session queue, which is empty by then, and
  never runs.

## Model

| member | source | states |
|---|---|---|
| `Lru.LegacyLruCache.constructor` | system/common/lru.h:45-51 | empty, with the given capacity, which must not be zero |
| `Lru.LegacyLruCache.Find` | system/common/lru.h:68-85 | a hit moves its node to the front, keeps the order of the others and yields a pointer to its value; a miss changes nothing and yields none; the index is untouched |
| `Lru.LegacyLruCache.Load` | system/common/lru.h:102 | a pointer that Find returned reads the value of its key as long as the key is cached |
| `Lru.LegacyLruCache.Store` | system/common/lru.h:68-76 | writing through the pointer changes that value and nothing else: no node moves |
| `Lru.Written` | system/common/lru.h:68-76 | such a write keeps list and index in agreement |
| `Lru.LegacyLruCache.Get` | system/common/lru.h:95-104 | yields the value of the key and touches it exactly as Find does |
| `Lru.LegacyLruCache.HasKey` | system/common/lru.h:113-116 | true exactly for a resident key, which it touches |
| `Lru.LegacyLruCache.Put` | system/common/lru.h:126-146 | the pair is at the front; a known key is overwritten and evicts nobody; a full cache hands back exactly its tail; list and index stay in agreement; pointers to keys that stay remain valid |
| `Lru.LegacyLruCache.Remove` | system/common/lru.h:154-168 | takes out exactly that node; true exactly when it was there; pointers to the others remain valid |
| `Lru.LegacyLruCache.Clear` | system/common/lru.h:62-66 | nothing is left in list or index |
| `Lru.LegacyLruCache.Size` | system/common/lru.h:175-178 | the size of the index is the length of the list |
| `Lru.Indexed` | system/common/lru.h:77-85 | when list and index agree, a key is indexed exactly when its node is listed, and its iterator leads to that very node |
| `Lru.Spliced` | system/common/lru.h:83-84 | splicing a node to the front keeps all iterators valid and yields the touched list |
| `Lru.Erased` | system/common/lru.h:161-165 | erasing through an iterator takes out the node of that key and leaves every other iterator at its own node |
| `Lru.Pushed` | system/common/lru.h:143-144 | a node at an unused location joins list and index together |
| `LruModel.NodesTouched` | system/common/lru.h:77-85 | a touch neither adds nor loses a pair |
| `LruModel.NodesInserted` | system/common/lru.h:126-146 | an insertion adds exactly its pair and loses exactly the one handed back; keys stay distinct, capacity is kept |
| `LruModel.NodesWithout` | system/common/lru.h:154-168 | removal loses exactly the pair of that key |
| `LruModel.RunRemembers` | system/common/lru.h:62-168 | after every history of Find, Put, Remove and Clear the cache holds a prefix of the recency order, within capacity, and every touched, unforgotten key outside it was pushed out by `capacity` others |
| `LruModel.RecentIsByLastTouch` | system/common/lru.h:77-168 | the recency order of a history is the order of last touches, latest first, over exactly the keys touched and not forgotten |
| `LruModel.EvictsOldest` | system/common/lru.h:135-141 | after every history, the node a full cache gives up has the oldest last touch of all residents |
| `LruModel.StaysResident` | system/common/lru.h:126-146 | after every history, a key touched and not removed is resident if fewer than `capacity` other keys were touched since; when nothing was removed since, if and only if |
| `LruModel.HoldsLastPut` | system/common/lru.h:126-133 | after every history a resident key has the value it was put with last |
| `MetricIdModel.FirstFreeIsUnique` | system/common/metric_id_allocator.cc:129-135 | walking round the id circle from a start, there is only one first free id |
| `MetricIdModel.TakenRun` | system/common/metric_id_allocator.cc:129-135 | the ids met going round are distinct, so a run of taken ids is no longer than the id set |
| `MetricIdModel.SearchEndsIff` | system/common/metric_id_allocator.cc:129-135 | the search from a valid cursor ends exactly when some valid id is not in the set |
| `MetricIdModel.FreeIdExists` | system/common/metric_id_allocator.cc:39-45 | pigeonhole: with at most 333 ids taken that no device has, the two caches cannot use up the range |
| `MetricIdAllocator.MetricIdAllocator.FindNextId` | system/common/metric_id_allocator.cc:129-135 | the search loop terminates at the first free id at or after the cursor, going round |
| `MetricIdAllocator.MetricIdAllocator.constructor` | system/common/metric_id_allocator.cc:47-49 | empty and closed, without callbacks, with sound caches of the two capacities |
| `MetricIdAllocator.MetricIdAllocator.Init` | system/common/metric_id_allocator.cc:51-89 | each of the four outcomes exactly when it applies, also for an allocator closed with devices paired since; on success refines the loading of the map, with the forget callbacks it makes |
| `MetricIdAllocator.MetricIdAllocator.Close` | system/common/metric_id_allocator.cc:93-103 | true exactly when it was open; then nothing is held; the cursor and the callbacks stay |
| `MetricIdAllocator.MetricIdAllocator.IsEmpty` | system/common/metric_id_allocator.cc:110-114 | true exactly when no device is held |
| `MetricIdAllocator.MetricIdAllocator.AllocateId` | system/common/metric_id_allocator.cc:117-147 | refines the allocation step, for known and new addresses, open or closed, whenever the search ends |
| `MetricIdAllocator.MetricIdAllocator.SaveDevice` | system/common/metric_id_allocator.cc:150-178 | refines the save step, open or closed; the callbacks made, in order; true exactly for an already paired device or an accepted save; the failed-removal branch is dead |
| `MetricIdAllocator.MetricIdAllocator.ForgetDevice` | system/common/metric_id_allocator.cc:181-197 | refines the forget step and its callback; the failed-removal branch is dead |
| `MetricIdAllocator.MetricIdAllocator.ForgetDevicePostprocess` | system/common/metric_id_allocator.cc:203-207 | frees the id and reports the device once |
| `MetricIdModel.AllocateFresh` | system/common/metric_id_allocator.cc:128-146 | a new address gets the first free id; at most the tail of the temporary list leaves, together with its id |
| `MetricIdModel.PairNodes` | system/common/metric_id_allocator.cc:163-171 | pairing moves the device with its id; at most the tail of the paired list leaves |
| `MetricIdModel.ForgetNodes` | system/common/metric_id_allocator.cc:181-197 | forgetting takes exactly the pair of that address out of the paired list |
| `MetricIdModel.StepKeeps` | system/common/metric_id_allocator.cc:117-197 | every call that returns keeps the bounds and the uniqueness of addresses and ids with the exact id set, and neither makes ids stale nor frees stale ones |
| `MetricIdModel.RunKeeps` | system/common/metric_id_allocator.cc:117-197 | the same over every run whose calls return |
| `MetricIdModel.SoundCompletes` | system/common/metric_id_allocator.cc:117-197 | with at most 333 stale ids every call of every run returns |
| `MetricIdInit.LoadSplits` | system/common/metric_id_allocator.cc:69-79 | whatever was paired before, the loaded devices end up in front in reverse order and none of them is evicted |
| `MetricIdInit.SplitPartitions` | system/common/metric_id_allocator.cc:69-79 | every device paired before either stays behind them, leaves, or is overridden by the map, and only one of these |
| `MetricIdInit.IdsAfterLoad` | system/common/metric_id_allocator.cc:73-77 | if no eviction takes back a loaded id, exactly the ids of the devices that left are gone and exactly the loaded ones are new |
| `MetricIdInit.CursorPastLargest` | system/common/metric_id_allocator.cc:78-82 | the cursor Init leaves stands one past the largest saved id, and at the start when there is none or the largest is the maximum |
| `MetricIdInit.InitShaped` | system/common/metric_id_allocator.cc:51-89 | from any state and any accepted map Init leaves caches within their bounds, valid ids and a valid cursor |
| `MetricIdInit.InitReports` | system/common/metric_id_allocator.cc:69-79 | Init calls back only for devices paired before that it pushes out, and for each that is gone although the map does not name it |
| `MetricIdInit.InitStale` | system/common/metric_id_allocator.cc:69-79 | Init makes no other ids stale than the old ids of overridden devices that the map gives to nobody |
| `MetricIdInit.InitStaleExactly` | system/common/metric_id_allocator.cc:69-79 | and from a unique state exactly those |
| `MetricIdInit.InitUniqueIff` | system/common/metric_id_allocator.cc:69-79 | from any unique state Init keeps addresses and ids unique and the id set exact exactly when the map clashes with nobody who stays, leaves no stale id, and no eviction takes back a loaded id |
| `MetricIdInit.InitUniqueWithRoom` | system/common/metric_id_allocator.cc:69-79 | when map and paired devices fit together, that is: distinct ids, no id of a device outside the map, and a known address only if paired and its old id is given to somebody |
| `MetricIdInit.InitFromBlank` | system/common/metric_id_allocator.cc:51-89 | from an empty allocator Init loads exactly the map, and ids are unique exactly when those of the map are |
| `MetricIdInit.SharedIdBreaksUniqueness` | system/common/metric_id_allocator.cc:69-79 | a map with a shared id is accepted; forgetting one of its devices then frees the id that the other still has |
| `MetricIdInit.AlwaysUnique` | system/common/metric_id_allocator.cc:51-197 | from Init of an empty allocator with distinct valid ids, in every run, every call returns, no two devices share an id or an address and the id set is exact |
| `MetricIdInit.RestartKeepsIds` | system/common/metric_id_allocator.cc:51-207 | from Init through any run, Close and Init from what reached the disk: the second Init succeeds, ids are unique again, every device on the disk has its old id, and without refused saves every paired device is there |
| `MetricIdLife.EmptyOut` | system/common/metric_id_allocator.cc:150-197 | from every state some run of saves and forgets empties both caches |
| `MetricIdLife.GetStuck` | system/common/metric_id_allocator.cc:117-178 | from every tidy state with more than 333 stale ids some run of allocations and saves meets a search that does not end |
| `MetricIdLife.EveryRunReturnsIff` | system/common/metric_id_allocator.cc:117-197 | from every state the code can be in, every call of every run returns if and only if at most 333 ids are stale |
| `MetricIdLife.EveryRunReturnsAfterInitIff` | system/common/metric_id_allocator.cc:51-147 | after Init from a unique state: if and only if the map leaves at most 333 stale ids behind |
| `MetricIdLife.AlwaysWellFormed` | system/common/metric_id_allocator.cc:51-207 | over whole lives with any Inits and Closes: bounds, valid ids, and nothing paired before callbacks were set |
| `MetricIdLife.UniqueThroughoutIff` | system/common/metric_id_allocator.cc:51-207 | over whole lives, addresses and ids are unique and the id set exact at every point if and only if every Init that took effect was given a good map |
| `MetricIdLife.GoodLifeReturns` | system/common/metric_id_allocator.cc:117-147 | and then every call returns |
| `MetricIdLife.ClashAfterClose` | system/common/metric_id_allocator.cc:93-103 | a life whose last Init, with distinct ids, breaks uniqueness because a device was paired after a Close |
| `MetricIdLife.IdsCanRunOut` | system/common/metric_id_allocator.cc:129-135 | a life whose last Init, with distinct valid ids, leaves every valid id taken, so that the search for a new device finds none |
| `MetricIdRecency.PairedByLastUse` | system/common/metric_id_allocator.cc:51-178 | in every life the paired devices stand in the order of their last allocation, save or load |
| `MetricIdRecency.TemporaryByLastUse` | system/common/metric_id_allocator.cc:117-147 | in every life the temporary devices stand in the order of their last allocation while not paired |
| `MetricIdRecency.PairedGivesUpOldest` | system/common/metric_id_allocator.cc:167-170 | in every life a paired device that another call pushes out had the oldest last use of a full cache |
| `MetricIdRecency.TemporaryGivesUpOldest` | system/common/metric_id_allocator.cc:138-141 | in every life a temporary device that another call pushes out had the oldest last use of a full cache |
| `MetricIdRecency.InitGivesUpOldest` | system/common/metric_id_allocator.cc:73-76 | the devices an Init pushes out were used before all those it leaves |
| `MetricIdRecency.KeepsIdWhileRecent` | system/common/metric_id_allocator.cc:117-178 | in every life an address that AllocateId answered gets the same answer again while fewer than 200 other addresses were used since, or 65000 if it was paired, unless it is forgotten, an initialized allocator is closed or an Init brings its id; it may be paired meanwhile |
| `MetricIdRecency.TemporaryUntilManyOthers` | system/common/metric_id_allocator.cc:117-147 | when only other unpaired addresses are allocated since, a temporary device is known if and only if they are fewer than 200 |
| `MetricIdRecency.FreshIdsGoRound` | system/common/metric_id_allocator.cc:129-145 | in every life a new address gets the first free id after the one handed out last, also across a Close |
| `MetricIdModel.AnswerIsHeld` | system/common/metric_id_allocator.cc:117-147 | the answer is the id under which the address is then held: its old id, or one nobody held |
| `MetricIdModel.OnlyLeaverLeaves` | system/common/metric_id_allocator.cc:117-197 | each operation adds and removes exactly the devices it should; everybody else keeps its id |
| `MetricIdModel.KeepsId` | system/common/metric_id_allocator.cc:117-197 | in every run, until it is evicted or forgotten, a device keeps its id and AllocateId answers with it |
| `MetricIdModel.StepMirrors` | system/common/metric_id_allocator.cc:150-207 | the callbacks of one operation turn the old paired map into the new one |
| `MetricIdModel.RunMirrors` | system/common/metric_id_allocator.cc:150-207 | replaying the callbacks of any run on the initial map yields the paired cache: the configuration mirrors it |
| `MetricIdModel.DiskStaysSmall` | system/common/metric_id_allocator.cc:167-173 | at no moment of a run does the disk hold more devices than the paired cache may: evictions are reported before the save |
| `MetricIdModel.FailedSavesOnlyLose` | system/common/metric_id_allocator.cc:172-176 | saves the callback refuses only make the disk hold less; nothing stale stays on it |
| `ModuleGraph.PathIsShort` | system/gd/module.cc:83-105 | on an acyclic graph the stack of nested Start calls never repeats a factory, so the recursion ends |
| `ModuleGraph.NeedsUnfold` | system/gd/module.cc:94-95 | what a module needs is itself and what its listed dependencies need |
| `ModuleGraph.NoNeedBack` | system/gd/module.cc:94-95 | no dependency needs the module that lists it |
| `ModuleRegistry.ModuleRegistry.constructor` | system/gd/module.cc:60-133 | an empty registry on a closed, acyclic dependency graph |
| `ModuleRegistry.ModuleRegistry.Get` | system/gd/module.cc:60-66 | succeeds exactly for the modules in the start order, also while modules start, and yields the one instance made for that factory |
| `ModuleRegistry.ModuleRegistry.IsStarted` | system/gd/module.cc:68-70 | true exactly for the modules in the start order |
| `ModuleRegistry.ModuleRegistry.GetDependency` | system/gd/module.cc:43-51 | a listed, registered dependency is found and anything else is fatal; when the dependencies of the caller are up, every listed one is found |
| `ModuleRegistry.StartedFindsDependencies` | system/gd/module.h:98-100 | the dependencies of a started module are up |
| `ModuleRegistry.StartingFindsDependencies` | system/gd/module.h:98-100 | and so they were, transitively, while the own Start of every module ran |
| `ModuleRegistry.ModuleRegistry.StartModule` | system/gd/module.cc:83-105 | the registered set grows by exactly the transitive needs of the module; order, instances and trace only grow; a started module yields its old instance, a new one a fresh instance; the order stays topological |
| `ModuleRegistry.ModuleRegistry.StartList` | system/gd/module.cc:72-76 | the same for a list: exactly the needs of all its members are added |
| `ModuleRegistry.ModuleRegistry.Start` | system/gd/module.cc:83-105 | the entry point for one module, from and to a valid registry |
| `ModuleRegistry.ModuleRegistry.StartAll` | system/gd/module.cc:72-76 | the entry point for a list of modules |
| `ModuleRegistry.ModuleRegistry.StopAll` | system/gd/module.cc:107-133 | the trace is the reverse start order, handlers and stops first, deletions after; neither assertion fails; the registry is empty |
| `ModuleRegistry.NeedsStandBefore` | system/gd/module.cc:107-108 | everything a module needs, transitively, stands before it in the start order |
| `ModuleRegistry.ExactlyOnce` | system/gd/module.cc:83-105 | in a valid registry every started module was constructed once and started once, any other never |
| `ModuleRegistry.StopTraceAt` | system/gd/module.cc:109-121 | position by position, the stop trace is the start order reversed, handler first |
| `ModuleRegistry.DeleteTraceAt` | system/gd/module.cc:122-129 | position by position, the deletion trace is the start order reversed |
| `ModuleRegistry.StopsBeforeItsNeeds` | system/gd/module.cc:107-133 | each module stops while everything it needs is registered and not yet stopped, right after its own handler, and before anything is deleted |
| `MessageLoopThread.StepKeepsInv` | system/common/message_loop_thread.cc:59-211 | every step of every caller and thread keeps: no fault, one live worker whose fields belong together, one caller bound to reclaim it |
| `MessageLoopThread.AlwaysInv` | system/common/message_loop_thread.cc:59-211 | that invariant holds in every interleaving of any number of callers |
| `MessageLoopThread.SafeInEveryRun` | system/common/message_loop_thread.cc:59-211 | in every run: no null dereference, double join or bad delete; one unfreed worker at most; loop, run loop and thread id set together; a post is accepted if and only if the current thread is in its loop, and goes to that thread; a worker that left its loop has exactly one reclaimer |
| `MessageLoopThread.PostRefusedIff` | system/common/message_loop_thread.cc:81-98 | in every run a post is refused if and only if there is no thread, it is still coming up or it has finished; accepted posts go to the current thread, which is in its loop |
| `MessageLoopThread.ShutDownPromise` | system/common/message_loop_thread.h:77-86 | the caller that does the work returns with every thread joined and freed and nothing running; a call that returns at once leaves it so exactly when there was no thread |
| `MessageLoopThread.RunningAfterShutDownIff` | system/common/message_loop_thread.cc:100-114 | after a ShutDown that returned at once the thread can be found running, without any further call, exactly when it was still coming up or another shutdown was under way with the loop up |
| `MessageLoopThread.LostShutDownIff` | system/common/message_loop_thread.cc:107-110 | once all pending calls have returned, a ShutDown that returned at once has had its effect exactly unless the thread was still coming up; then it goes on running |
| `MessageLoopThread.LostShutDown` | system/common/message_loop_thread.cc:107-110 | a run whose only ShutDown is lost |
| `MessageLoopThread.StartUpPromise` | system/common/message_loop_thread.h:58-65 | a call that waited returns to a running thread exactly while the current thread is in its loop; one that returns at once, exactly unless the thread is still coming up or has left its loop |
| `MessageLoopThread.StartUpReturnsToStopped` | system/common/message_loop_thread.cc:72-73 | a run in which a StartUp that waited returns to a stopped thread |
| `MessageLoopThread.SecondStartUpReturnsEarly` | system/common/message_loop_thread.cc:64-68 | a run in which a second StartUp returns before the thread is up |
| `MessageLoopThread.SecondShutDownReturnsEarly` | system/common/message_loop_thread.cc:111-114 | a run in which a second ShutDown returns while the thread still runs |
| `MessageLoopThread.SomeStepEnabled` | system/common/message_loop_thread.cc:59-128 | a waiting caller is never stuck: some step that finishes work is enabled |
| `MessageLoopThread.InternalStepProgresses` | system/common/message_loop_thread.cc:59-211 | every such step leaves strictly less work |
| `MessageLoopThread.CallsReturn` | system/common/message_loop_thread.cc:59-128 | from every reachable state, if no new call comes in, every pending StartUp and ShutDown returns |
| `RepeatingTimer.NextDeadline` | system/common/repeating_timer.cc:140-147 | with the wrap-around and truncation of the source: the next deadline is on the grid and not in the past; on time it is the expected time itself, late it is the first grid point left |
| `RepeatingTimer.Converts` | system/common/repeating_timer.cc:49-64 | the two conversions keep a number up to multiples of 2^64, within the range of their types |
| `RepeatingTimer.RepeatingTimer.SchedulePeriodic` | system/common/repeating_timer.cc:40-76 | true exactly for a legal period, a thread and an accepted post; the delay and the fields in each case |
| `RepeatingTimer.RepeatingTimer.CancelClosure` | system/common/repeating_timer.cc:110-121 | the schedule is cleared |
| `RepeatingTimer.RepeatingTimer.RunTask` | system/common/repeating_timer.cc:130-150 | posts again exactly when still scheduled on a running thread, with the expected time advanced by one period |
| `RepeatingTimer.NthDeadline` | system/common/repeating_timer.cc:130-150 | the deadline of the k-th run in terms of the k-th grid point, however late the earlier runs were |
| `RepeatingTimer.StaysOnGrid` | system/common/repeating_timer.cc:130-150 | for every run: deadlines are whole periods after the start, delays at most one period, and a run no more than a period late causes no drift |
| `RepeatingTimer.NeverOverfires` | system/common/repeating_timer.cc:130-150 | for every run: the k-th run is not before its k-th period, so by any time there is at most one run per elapsed period |
| `TimerProtocol.StepKeepsLive` | system/common/repeating_timer.cc:40-153 | every step keeps: at most one live callback, on the scheduled, running loop |
| `TimerProtocol.StepKeepsWaits` | system/common/repeating_timer.cc:85-121 | every step keeps: a wait ends only after its cancellation took effect or had nothing to cancel |
| `TimerProtocol.AlwaysInv` | system/common/repeating_timer.cc:40-153 | both hold in every interleaving of callers and loops |
| `TimerProtocol.AtMostOneLiveCallback` | system/common/repeating_timer.cc:40-76 | in every reachable state at most one posted callback can still run the task |
| `TimerProtocol.CancelAndWaitStops` | system/common/repeating_timer.cc:85-121 | once CancelAndWait may return, in every continuation whatever runs was scheduled after the call began |
| `TimerProtocol.SilenceLasts` | system/common/repeating_timer.cc:110-121 | a cancelled generation never runs again, in any continuation |
| `TimerProtocol.IsScheduledExactly` | system/common/repeating_timer.h:79-83 | in every reachable state a task is pending exactly when IsScheduled is true and the scheduled loop has not gone down since |
| `TimerProtocol.ScheduledWithNothingPending` | system/common/repeating_timer.cc:124-127 | a run in which the loop restarts and IsScheduled is true with nothing pending |
| `TimerProtocol.TaskRunsIff` | system/common/repeating_timer.cc:130-153 | in every reachable state a posted callback runs the task if and only if its schedule is the live one and the timer is scheduled; it then runs on the loop of the timer and is posted once more |
| `TimerProtocol.TaskCanRun` | system/common/repeating_timer.cc:130-153 | whenever the timer is scheduled, its loop uninterrupted and not held up, some callback can run the task of the live schedule |
| `TimerProtocol.TaskRunsAgainAndAgain` | system/common/repeating_timer.cc:130-153 | and any number of times |
| `TimerProtocol.ScheduledAfter` | system/common/repeating_timer.cc:40-127 | what each step does to IsScheduled and to the pending task: a schedule takes effect if and only if its loop runs, a cancellation that runs and the end of the loop leave nothing pending, nothing else changes them |
| `TimerProtocol.ScheduleSurvivesIff` | system/common/repeating_timer.cc:56-76 | a schedule survives whatever the loops do without a new call if and only if no older cancellation that can still run is queued |
| `TimerProtocol.StaleCancelKillsSchedule` | system/common/repeating_timer.cc:79-107 | a run in which a Cancel queued before a schedule kills that schedule |
| `TimerProtocol.ScheduleReturnsIff` | system/common/repeating_timer.cc:51-56 | in every reachable state a SchedulePeriodic that waits can return, in some continuation, if and only if the closure it waits for is not on a loop whose task waits for the API mutex |
| `TimerProtocol.ScheduleDeadlocks` | system/common/repeating_timer.cc:51-56 | a run in which it can never return |
| `TimerProtocol.CallReturnsIff` | system/common/repeating_timer.cc:79-107 | in every reachable state every call can return, in some continuation, if and only if it is neither a deadlocked SchedulePeriodic nor a CancelAndWait held up by one |
| `AudioPort.BluetoothAudioPort.constructor` | system/audio_bluetooth_hw/device_port_proxy.cc:120-125 | disabled, not registered, of unknown session type |
| `AudioPort.BluetoothAudioPort.SetUp` | system/audio_bluetooth_hw/device_port_proxy.cc:134-177 | true exactly for a known device, a ready session and a registered cookie; the port on which a stream is opened, and what each failure leaves behind |
| `AudioPort.BluetoothAudioPort.TearDown` | system/audio_bluetooth_hw/device_port_proxy.cc:236-250 | only the cookie goes |
| `AudioPort.BluetoothAudioPort.ControlResultCallback` | system/audio_bluetooth_hw/device_port_proxy.cc:252-313 | the state after a control result, for every state and status; a foreign or missing cookie changes nothing |
| `AudioPort.BluetoothAudioPort.SessionChangedCallback` | system/audio_bluetooth_hw/device_port_proxy.cc:315-328 | disabled; a foreign or missing cookie changes nothing |
| `AudioPort.BluetoothAudioPort.RequestStart` | system/audio_bluetooth_hw/device_port_proxy.cc:458-494 | Starting exactly from Standby with a cookie; waits exactly when the stack accepts |
| `AudioPort.BluetoothAudioPort.RequestSuspend` | system/audio_bluetooth_hw/device_port_proxy.cc:496-528 | Suspending exactly from Started with a cookie; waits exactly when the stack accepts |
| `AudioPort.BluetoothAudioPort.Stop` | system/audio_bluetooth_hw/device_port_proxy.cc:530-543 | disabled when registered |
| `AudioPort.BluetoothAudioPort.SetState` | system/audio_bluetooth_hw/device_port_proxy.cc:652-654 | only the state changes |
| `AudioPort.BluetoothAudioPort.CondwaitState` | system/audio_bluetooth_hw/device_port_proxy.cc:426-456 | a wait answers true exactly when the state it hopes for is reached, and goes on exactly while nothing has moved and time remains |
| `AudioPort.StartOutcome` | system/audio_bluetooth_hw/device_port_proxy.cc:252-313 | what any series of results does to a Start: refused or ended by a further result it is back in Standby, otherwise Started |
| `AudioPort.SuspendOutcome` | system/audio_bluetooth_hw/device_port_proxy.cc:252-313 | the first result decides a Suspend |
| `AudioPort.FallsThroughIff` | system/audio_bluetooth_hw/stream_apis.cc:666-683 | for every series of callbacks between them, the four comparisons of out_resume all fail without seeing Started exactly when a Start is undone before the second or a Suspend granted before the third, and the session does not change |
| `AudioParams.ParseAudioParams` | system/audio_bluetooth_hw/utils.cc:33-49 | the loop yields the map of the text |
| `AudioParams.PrintParams` | system/audio_bluetooth_hw/stream_apis.cc:501-504 | the loop yields the printed pairs |
| `AudioParams.SplitAt` | system/audio_bluetooth_hw/utils.cc:36-41 | a text splits at every delimiter and nowhere else |
| `AudioParams.ParseJoins` | system/audio_bluetooth_hw/utils.cc:33-49 | parsing two texts joined by a semicolon is parsing the first overridden by the second: the last value of a key wins |
| `AudioParams.ParseIsClean` | system/audio_bluetooth_hw/utils.cc:33-49 | whatever the text, keys are not empty and neither keys nor values hold a separator |
| `AudioParams.ParseSegment` | system/audio_bluetooth_hw/utils.cc:41-46 | a segment without an equals sign is a key with an empty value, the text after a second equals sign is ignored, and an empty key says nothing |
| `AudioParams.RoundTrip` | system/audio_bluetooth_hw/stream_apis.cc:501-504 | parsing undoes printing, in any order of the map, if and only if its keys are not empty and nothing in it holds a separator |
| `AudioStream.TransitionCause` | system/audio_bluetooth_hw/stream_apis.cc:267-688 | every change of the port state is one of the allowed transitions and has the one cause allowed for it |
| `AudioStream.StepKeepsInv` | system/audio_bluetooth_hw/stream_apis.cc:267-865 | every step of every thread and callback keeps the stream invariant |
| `AudioStream.AlwaysInv` | system/audio_bluetooth_hw/stream_apis.cc:267-865 | it holds in every interleaving |
| `AudioStream.StartedOnlyByStarting` | system/audio_bluetooth_hw/device_port_proxy.cc:252-313 | in every run Started comes by a success callback right after Starting, which a Start made right after Standby |
| `AudioStream.DisabledIsFinal` | system/audio_bluetooth_hw/stream_apis.cc:344-365 | in every run Disabled is left only to Standby, only on an A2DP port and only by that parameter; on any other port it is final |
| `AudioStream.WriteDataAfterStarted` | system/audio_bluetooth_hw/stream_apis.cc:528-553 | in every run a thread about to write has seen Started in the same out_write, exactly unless out_resume found a Start or Suspend under way that a result ended before the comparison made for it, with no session change; unseen data goes to a port that was in Standby at the last comparison |
| `AudioStream.StartAnswers` | system/audio_bluetooth_hw/device_port_proxy.cc:458-494 | in every run a waiting Start answers true exactly when the first callback since its request is a success and only failures followed |
| `AudioStream.SuspendAnswers` | system/audio_bluetooth_hw/device_port_proxy.cc:496-528 | in every run a waiting Suspend answers true exactly when the first callback is a success and the session did not change |
| `AudioStream.WritesWithoutStarted` | system/audio_bluetooth_hw/stream_apis.cc:659-688 | a run of one client in which a late answer makes out_resume fall through, so that data is written to a port in standby |
| `AudioStream.FeedingLatency` | system/audio_bluetooth_hw/stream_apis.cc:71-98 | the reported delay exactly within its plausible range, otherwise 200 ms more than the playing time of the buffer, by its two division bounds |
| `AudioStream.PresentationPosition` | system/audio_bluetooth_hw/stream_apis.cc:107-126 | between two latencies and one latency behind the frames presented, whatever the stack reports; which of the two counters is used, exactly |
| `AudioStream.CalculateFeedingDelay` | system/audio_bluetooth_hw/stream_apis.cc:51-130 | latency and position of the whole function, with the counter it uses in each case |
| `AudioStream.RenderPosition` | system/audio_bluetooth_hw/stream_apis.cc:589-606 | frames rendered less the latency, never negative, and the 32-bit truncation of that |
| `AudioStream.RenderedWithinPresented` | system/audio_bluetooth_hw/stream_apis.cc:557-560 | in every run the rendered frames never exceed the presented ones |
| `AudioStream.PresentedGoesBackIff` | system/audio_bluetooth_hw/stream_apis.h:71-72 | a step sets the presented frames back exactly when it is a closing or exiting parameter or the close, on a port in use with frames presented, and then to zero |
| `AudioStream.PresentedGoesBack` | system/audio_bluetooth_hw/stream_apis.cc:396-401 | a run in which the closing parameter sets them back |
| `AudioStream.CountsWrittenIff` | system/audio_bluetooth_hw/stream_apis.cc:557-560 | a write adds the frames the stack took exactly when it took nothing or as many whole frames as were requested |
| `AudioStream.CountsMoreThanWritten` | system/audio_bluetooth_hw/stream_apis.cc:557-560 | a run in which the stack takes one of two frames and both are counted |
| `AudioEffects.AlwaysServes` | system/audio_bluetooth_hw/stream_apis.cc:267-865 | in every run each thread is at a step of the operation it called last, with its arguments and with what the parameter text says |
| `AudioEffects.ParametersDisable` | system/audio_bluetooth_hw/stream_apis.cc:344-416 | in every run, when out_set_parameters returns from closing="true", exiting="1", or A2dpSuspended="true" on an A2DP port, the port is disabled |
| `AudioEffects.ParameterSteps` | system/audio_bluetooth_hw/stream_apis.cc:344-416 | what each step of out_set_parameters does to the port, by the text of the parameters |
| `AudioEffects.CloseDisables` | system/audio_bluetooth_hw/stream_apis.cc:846-865 | in every run, once the close has gone through, the port is disabled and unregistered for good |
| `AudioEffects.StartRequests` | system/audio_bluetooth_hw/device_port_proxy.cc:458-494 | in every run a Start that finds Standby makes the port Starting and waits if the stack agrees, and otherwise leaves it |
| `AudioEffects.SuspendRequests` | system/audio_bluetooth_hw/device_port_proxy.cc:496-528 | in every run a Suspend that finds Started makes the port Suspending, and otherwise leaves it |
| `AudioEffects.WriteCourse` | system/audio_bluetooth_hw/stream_apis.cc:528-587 | in every run, exactly when a write hands its data to the stack and when it gives up, and the bytes it returns |
| `AudioEffects.ResumeReturns` | system/audio_bluetooth_hw/stream_apis.cc:659-688 | in every run, exactly when a resume returns 0 and each error code, by the callbacks since its request |
| `AudioEffects.PauseCourse` | system/audio_bluetooth_hw/stream_apis.cc:633-657 | in every run, exactly when standby and pause suspend, and when they return 0 or busy |
| `AudioEffects.RenderedCountsWrites` | system/audio_bluetooth_hw/stream_apis.cc:556-560 | in every run the rendered frames are those of the successful writes since the last reset of that counter |
| `AudioEffects.PresentedCountsWrites` | system/audio_bluetooth_hw/stream_apis.cc:556-560 | and the presented frames those since the last of the fewer steps that reset them |
| `LeakyBondedQueue.LastNAppend` | system/common/leaky_bonded_queue.h:102-110 | dropping the oldest while enqueueing keeps the same as keeping everything and taking the tail |
| `LeakyBondedQueue.LeakyBondedQueue.constructor` | system/common/leaky_bonded_queue.h:94-97 | empty, with the given capacity |
| `LeakyBondedQueue.LeakyBondedQueue.Enqueue` | system/common/leaky_bonded_queue.h:102-110 | the queue is the last `capacity` items of what it was plus the new one |
| `LeakyBondedQueue.LeakyBondedQueue.EnqueueWithPop` | system/common/leaky_bonded_queue.h:112-124 | the same, and hands back exactly the item that was dropped |
| `LeakyBondedQueue.LeakyBondedQueue.Dequeue` | system/common/leaky_bonded_queue.h:126-132 | takes the oldest item; undefined on an empty queue |
| `LeakyBondedQueue.LeakyBondedQueue.Empty` | system/common/leaky_bonded_queue.h:154-158 | true exactly when nothing is queued |
| `LeakyBondedQueue.LeakyBondedQueue.Clear` | system/common/leaky_bonded_queue.h:134-141 | nothing is left |
| `A2dpMetrics.A2dpSessionMetrics.UpdateWith` | system/common/metrics.cc:116-171 | refines the update step, field by field |
| `A2dpMetrics.TotalsAreExact` | system/common/metrics.cc:117-152 | over any list of reports the two totals are the sums of the measured values, or unmeasured |
| `A2dpMetrics.MinimumIsExact` | system/common/metrics.cc:121-128 | the minimum is the least measured value |
| `A2dpMetrics.MaximaAreExact` | system/common/metrics.cc:129-147 | the two maxima are the greatest measured values |
| `A2dpMetrics.FlagsAreSticky` | system/common/metrics.cc:165-170 | the codec is the first measured one; offload is reported if and only if some report says so |
| `A2dpMetrics.AverageDrift` | system/common/metrics.cc:105-143 | over any n measured reports the scheduling count is exact and the truncated average is never above the true one and at most (n - 1)(count - 1) below it, weighted by the count |
| `A2dpMetrics.UnderrunAverageIsExact` | system/common/metrics.cc:94-164 | over the reals the underrun average is the weighted mean and its count exact |
| `A2dpMetrics.FirstAverageStands` | system/common/metrics.cc:94-113 | as long as the measured reports count nothing, the averages are those of the first of them |
| `MetricsLogger.Drain` | system/common/metrics.cc:525-548 | each loop of Build moves the whole queue into the log, in order |
| `MetricsLogger.BluetoothMetricsLogger.constructor` | system/common/metrics.cc:313-315 | an empty logger |
| `MetricsLogger.BluetoothMetricsLogger.LogPairEvent` | system/common/metrics.cc:317-333 | refines the step that queues and counts a pair event |
| `MetricsLogger.BluetoothMetricsLogger.LogWakeEvent` | system/common/metrics.cc:335-350 | the same for a wake event |
| `MetricsLogger.BluetoothMetricsLogger.LogScanEvent` | system/common/metrics.cc:352-372 | the same for a scan event |
| `MetricsLogger.BluetoothMetricsLogger.LogBluetoothSessionStart` | system/common/metrics.cc:374-388 | ends an open session with its reason and a first reading of the clock, then opens one at the given time or the next reading |
| `MetricsLogger.BluetoothMetricsLogger.LogBluetoothSessionEnd` | system/common/metrics.cc:390-412 | queues the session with reason and duration, and clears the accumulated A2DP metrics; without a session nothing happens |
| `MetricsLogger.BluetoothMetricsLogger.LogBluetoothSessionDeviceInfo` | system/common/metrics.cc:414-423 | records the device class, opening a session of unknown technology when there is none |
| `MetricsLogger.BluetoothMetricsLogger.LogA2dpSession` | system/common/metrics.cc:425-459 | accumulates into the open session, opening a BR/EDR audio session when there is none |
| `MetricsLogger.BluetoothMetricsLogger.CutoffSession` | system/common/metrics.cc:506-519 | closes the open session at one reading of the clock and goes on at the next with a copy without its A2DP part |
| `MetricsLogger.BluetoothMetricsLogger.LogHeadsetProfileRfcConnection` | system/common/metrics.cc:461-477 | counts a connection of the profile of the service |
| `MetricsLogger.EmitHeadsets` | system/common/metrics.cc:555-566 | the loop emits the profiles with a positive count |
| `MetricsModel.EmittedExactly` | system/common/metrics.cc:555-566 | exactly the profiles with a positive count are emitted, each with its count |
| `MetricsModel.DumpCountsHeadsets` | system/common/metrics.cc:461-568 | after every sequence of operations a dump emits exactly the profiles connected since the previous dump, in order, with their numbers, whatever resets came between |
| `MetricsLogger.BluetoothMetricsLogger.WriteString` | system/common/metrics.cc:479-568 | emits the dump of the state and leaves the cleared logger; the trailing wake-event loop never runs |
| `MetricsLogger.BluetoothMetricsLogger.ResetAll` | system/common/metrics.cc:570-592 | back to the empty logger, except for the headset connection counts |
| `MetricsModel.StepKeepsQueues` | system/common/metrics.cc:317-592 | every operation keeps each queue the tail of what was logged and each counter its number |
| `MetricsModel.StepKeepsSessions` | system/common/metrics.cc:374-519 | every operation keeps each session carrying the aggregate of its own A2DP calls |
| `MetricsModel.StepKeepsCalls` | system/common/metrics.cc:374-592 | every operation keeps every A2DP call in one segment |
| `MetricsModel.AlwaysKept` | system/common/metrics.cc:317-592 | all three hold after every sequence of operations |
| `MetricsModel.DumpIsTheTail` | system/common/metrics.cc:479-568 | after every sequence of operations a dump emits the last events of each kind since the previous dump, in order, with the number of all; nothing stays queued and an open session goes on without its A2DP part |
| `MetricsModel.EveryCallInOneSegment` | system/common/metrics.cc:425-519 | after every sequence of operations each A2DP call is counted in exactly one session segment, and each session carries the aggregate of its own |
| `MetricsModel.ClosedSessionsAreSegments` | system/common/metrics.cc:390-412 | the sessions waiting for the next dump are those of the latest segments, in order |
| `MetricsSessions.DumpTellsTheLog` | system/common/metrics.cc:374-519 | after every sequence of operations the sessions of a dump are, by the log alone, those closed since the previous dump or reset: each with the reason of the call that closed it, the seconds from its opening to its closing time, the technology of its start, the class logged last and the summary of its reports |
| `MetricsSessions.AlwaysOpenAsLogged` | system/common/metrics.cc:374-519 | after every sequence of operations the open session is the one the log says, with its start time, technology and class |
| `MetricsSessions.DurationIsElapsedIff` | system/common/metrics.cc:399-400 | the duration is the time elapsed if and only if the session does not end before it began |
| `MetricsSessions.DumpCountsServices` | system/common/metrics.cc:461-568 | a dump emits each headset profile, by its number, with the connections of its service since the previous dump |
| `LeAudioHost.LeAudioTransport.StartRequest` | system/audio_hal_interface/le_audio_software_host_transport.cc:39-62 | refines the start request, with decisions arriving inside the resume callback and between its comparisons |
| `LeAudioHost.LeAudioTransport.ClearStartRequestState` | system/audio_hal_interface/le_audio_software_host_transport.cc:159-163 | only the request state and the delay are cleared |
| `LeAudioHost.LeAudioTransport.ConfirmStreamingRequest` | system/audio_hal_interface/le_audio_software_host.cc:259-291 | refines a confirmation in each request state |
| `LeAudioHost.LeAudioTransport.CancelStreamingRequest` | system/audio_hal_interface/le_audio_software_host.cc:297-327 | refines a cancellation in each request state |
| `LeAudioHost.LeAudioTransport.Stop` | system/audio_hal_interface/le_audio_software_host.cc:248-257 | refines the end of the session |
| `LeAudioHost.DuringResume` | system/audio_hal_interface/le_audio_software_host_transport.cc:39-48 | inside the callback the first decision fixes the request, a stop clears it, and the stream status does not move |
| `LeAudioHost.Settled` | system/audio_hal_interface/le_audio_software_host.cc:259-327 | a settled request is not moved by further decisions |
| `LeAudioHost.FirstDecisionCounts` | system/audio_hal_interface/le_audio_software_host_transport.cc:39-62 | for every sequence of decisions inside the callback the first one counts; without one the request stays pending |
| `LeAudioHost.StartAnswersIff` | system/audio_hal_interface/le_audio_software_host_transport.cc:39-62 | a request answers true if and only if there is a transport, its resume succeeds and it is not found canceled at the second comparison, told by the events |
| `LeAudioHost.StartResetsPosition` | system/audio_hal_interface/le_audio_software_host.cc:83-93 | a request starts from no delay and no bytes and comes back with the delay reported last |
| `LeAudioHost.KeepsLastDelay` | system/audio_hal_interface/le_audio_software_host_transport.cc:140-163 | while no request is pending the transport keeps the delay reported last since the last stop |
| `LeAudioHost.SettlingForgetsDelay` | system/audio_hal_interface/le_audio_software_host_transport.cc:159-163 | the decision on a pending request, or a stop, forgets the delay; what is reported later counts again |
| `LeAudioHost.PendingExactly` | system/audio_hal_interface/le_audio_software_host_transport.cc:39-62 | a request comes back pending if and only if its resume succeeds and it was not settled in time, wherever the events fall |
| `LeAudioHost.ConfirmationLost` | system/audio_hal_interface/le_audio_software_host_transport.cc:48-55 | a confirmation just before the request is marked pending opens the data path and is lost |
| `LeAudioHost.ForgetsExactly` | system/audio_hal_interface/le_audio_software_host_transport.cc:39-62 | which requests come back pending after a confirmation has already opened the data path |
| `LeAudioHost.OpensOnceIff` | system/audio_hal_interface/le_audio_software_host.cc:259-291 | a request opens the data path at most once, whatever follows, if and only if it is not one of those |
| `LeAudioHost.PendingIsDecidedOnce` | system/audio_hal_interface/le_audio_software_host.cc:259-327 | a pending request is decided by the first decision that follows, and the data path opens once or not at all |
| `LeAudioHost.AlwaysAtRest` | system/audio_hal_interface/le_audio_software_host_transport.cc:39-62 | between operations, in every run, a request is either absent or pending |
| `LeAudioHost.LeavesAtMostOnce` | system/audio_hal_interface/le_audio_software_host.cc:259-327 | after a request the stream status leaves its resting value at most once, and only if the request came back pending |
| `LeAudioHost.RequestLeavesStreamAlone` | system/audio_hal_interface/le_audio_software_host.cc:83-93 | while the request itself runs the stream status stays at its resting value |

## Left out

- The HIDL port and the input stream: the same control path as the AIDL port and the output stream, so they would only repeat members.
- Statsd events, enum mappers, protocol buffer serialisation and Base64: no state and no branching worth stating.
- Widths of the metric counters, of the int32 and int64 totals and averages, and of the uint64 frame counters: unbounded here; the timer and the render position do model theirs.
- A2dpMetrics.UnderrunAverageIsExact: over the reals, so it does not model the rounding of `float`.
- Data races below the level of a mutex section, and memory ordering; the recursive LRU and logger locks are taken as sequential execution.
- MetricIdAllocator.MetricIdAllocator.SaveDevice: before the first Init only for an address that is not temporary, because the source would otherwise call a callback that was never set.
- MetricIdAllocator.MetricIdAllocator.AllocateId: requires a known address or a free id, because otherwise the loop of the source does not end; `IdsCanRunOut` shows that this can happen.
- MetricIdAllocator.MetricIdAllocator.Init: says nothing about the state when it aborts on an invalid saved id, since the process ends there.
- ModuleRegistry.ModuleRegistry.constructor: the dependency graph is closed and acyclic, since on a cycle the recursive Start does not end; ListDependencies is taken to list the same modules each time.
- Test module injection, log texts, the name of the last module, and the handler stop timeout of the registry.
- MessageLoopThread.ShutDownPromise: calls from the loop thread itself are excluded, as the source asserts; tasks, their order inside the loop and a task runner that refuses a post are not modelled.
- LeakyBondedQueue.LeakyBondedQueue.Dequeue: requires an item, because taking from an empty queue is undefined in the source.
- LeakyBondedQueue.LeakyBondedQueue.constructor: capacity zero is excluded, because Enqueue would then take from an empty queue.
- RepeatingTimer.NeverOverfires: for clocks that stay two periods away from 2^63 microseconds and loops that run no task early; outside that range the signed difference of the source wraps.
- TimerProtocol.CancelAndWaitStops: due times are left open, so any posted callback may run at any moment; the destructor of the timer, a task that deletes its timer, and a SchedulePeriodic called on another loop are not modelled.
- AudioStream.StepKeepsInv: a comparison together with the Stop, Suspend or counter reset it guards in the parameter and close paths is one step; closing, which deletes the stream, comes only when no thread uses it; sleeping and the last write time are not modelled.
- Sample rate, format and routing parameters, what out_get_parameters answers, LeAudioSuspended (which only logs), source metadata and the mono conversion of the stream.
- The key names for closing and exiting come from a system header that is not part of this model; they are taken to be "closing" and "exiting".
- Creating and deleting the LE Audio transport instances, PCM configuration, and the broadcast and unicast acquisition flags.
- Everything else in the repository: the protocol layers, the Java and Kotlin services, the Rust code and the Python tools.
