# Verified model of the configuration store, the thread wakeup protocol and the message stream

The project models three parts of the repository and proves what they promise.

**The layered configuration.** `ConfigNode` holds the tree nodes as heap objects with mutable children.
Its methods walk and change them in place, and each is proved against a function on a flat map from
paths to node contents (`ConfigTree`). That map in turn is tied to the map of leaves, where every
operation has a plain meaning: setting is a map update, erasing a map removal, merging an overlay
(`ConfigOverlay`, `ConfigMerge`). `ConfigListing` covers path strings, leaf enumeration, diff and search,
`ConfigDocument` emitting and reading documents, `ConfigLoad` and `ConfigFiles` the include worklist,
`ConfigPair` the effective tree beside the persisted overrides, and `YamlConfiguration` the object with
both and the files behind them. `ConfigOverrides` is about single setters and erasures on the leaf maps,
`ConfigRuns` about runs of them. The end result is `ConfigReload.ChangeWriteReload`, a method on the
object: it loads, makes any calls of the setters and of erase, with any paths and values, and handles a
file event. Every call's result is stated, and the event reads the live tree back without a change exactly
if no call hid a leaf of the base files for good, none left a leaf with a text that has no kind, and no
override with a path element "root" stood when the host file was last written. It is for files without
conflicting keys and without such elements, whose includes do not lead into a cycle.

**Waking up threads and waiting for them.** `Barrier`, `ThreadWakeup` and `ThreadFinalization` are state
machines over the steps between taking and giving up a mutex, for any number of threads, with spurious
wakeups of condition variables. The locked sections are methods of classes with the original's fields,
proved against the functions the state machines step by. `ThreadList` is the list with its maintained
barrier and its bad lists. `Barrier::wait` of the base class is taken to do what POSIX promises for
`pthread_barrier_wait`.

**The message stream.** `Framing` has both header versions, the sending side and the receiving machine
over its reused buffer; `SendPump` has the send queues of the stream client, the server sessions and the
broadcast peer.

## Results that are not plain confirmations

- A setter can change the effective tree and then throw, in two cases (`SetTrees`). The text is stored
  before its kind is determined, and determining it throws for a number that is unsigned but does not fit
  an int (`TornSet`). And the overrides can refuse what the effective tree has taken, which needs an
  override that no leaf of the effective tree shows or hides; a host file `{root: {x: 1}}` makes one
  (`UnshownOverrideIsSet`), while files without an element "root", and any calls after loading them, make
  none (`FreshlyLoaded`, `RunKeepsTrace`). In all other cases both trees change or neither does.
- An erasure can change the overrides and then throw, without writing them: exactly if the path is an
  override that is not visible (`EraseTrees`). With a base file `{a: {b: 1}}` and a host file `{a: 2}`,
  which load, `erase("/a")` does so (`HiddenOverrideIsErased`); the host file then keeps what the memory
  has lost until the next call that goes through. In all other cases both trees change or neither does.
- Overrides are reproduced by a reload exactly as long as every leaf of the base files is still visible,
  no written override path has an element "root", and no visible leaf has a text without a kind
  (`ReproducibleIff`). The runs of calls that lose that are characterised exactly (`RunSurvivesReload`,
  `HiddenIff`, `TornIff`, `StoredNames`): for instance, `set_string("/root/x", v)` on an empty
  configuration shows `/root/x` until the next reload and `/x` from then on, since merging sends a node
  called "root" to the tree itself.
- Merging is overlay exactly for trees without such a node (`MergeIsOverlayIff`); with one, its nodes land under
  their paths without the elements "root" (`MergedPaths`).
- Loading comes to an end exactly if the queue leads into no include cycle (`EmptiesIff`); one that does
  fails or goes on for ever (`CyclesNeverLoad`).
- Coalescing is what loses wakeups: accepted ones are conserved exactly if none was merged into pending
  ones (`WakeupsAreConserved`).
- A write that fails leaves a stream pump active for good, also after a reconnect
  (`NothingAfterFailure`).
- `prepare_finalize()` does not in itself keep the loop from running: for every caller in every run, the
  thread can get into its loop without a later cancellation exactly if it is unprepared or in its loop
  when the call returns (`SafeOnReturn`). Without a concurrent loop that is exactly when a cancellation
  has overtaken the return (`NoLoopOncePrepared`); `ConcurrentLoopIsNotStopped` and
  `OvertakingCancelRestarts` are runs in which it happens.
- The search function called with a path that is not in the form the iterator uses yields only keys the
  iterator does not have (`SearchIsRestriction`).

Where comments and code disagree the model follows the code: a barrier that has been interrupted or has
timed out returns true to later callers instead of throwing or returning false, and the `_locked` list
mutators do block.

## Model

| member | source | states |
|---|---|---|
| ConfigTree.LeavesOfAssign | plugins/src/libs/config/yaml_node.h:590-599 | setting a path that is no inner node maps it to the new value, turns its ancestors from leaves into inner nodes and leaves every other leaf alone |
| ConfigTree.LeavesOfPrune | plugins/src/libs/config/yaml_node.h:328-367 | erasing removes exactly the erased leaf: no emptied ancestor survives as a new leaf |
| ConfigTree.PruneKeeps | plugins/src/libs/config/yaml_node.h:349-366 | erasing never removes the root, nor a node that is not on the way to the erased one |
| ConfigTree.InteriorIffLeafBelow | plugins/src/libs/config/yaml_node.h:793-797 | a node has children exactly if some leaf lies strictly below it |
| ConfigOverlay.AssignSound | plugins/src/libs/config/yaml_node.h:759-764 | setting keeps every leaf typed by its text and every inner node no scalar |
| ConfigOverlay.PruneSound | plugins/src/libs/config/yaml_node.h:328-367 | so does erasing |
| ConfigOverlay.KindsOfTexts | plugins/src/libs/config/yaml_node.h:730-757 | which kind a text gets, and that only a text taken as unsigned but not as int has none |
| ConfigOverlay.ClashesAreLeafClashes | plugins/src/libs/config/yaml_node.h:421-426 | the condition under which merging throws holds exactly if a leaf on the left is an inner node on the right |
| ConfigOverlay.LeavesOfMerge | plugins/src/libs/config/yaml_node.h:406-436 | the leaves after merging are those of the left tree overridden by the leaves of the right one that are not inner nodes on the left |
| ConfigFiles.MergeIsOverlayIff | plugins/src/libs/config/yaml_node.h:406-436 | merging into a tree without nodes called "root", if it does not throw, gives the overlay exactly if the tree merged in has none either |
| ConfigFiles.MergedPaths | plugins/src/libs/config/yaml_node.h:406-436 | a merge that does not throw makes a node for every node merged in, under its path without the elements "root", and no others |
| ConfigNode.Node.AddChild | plugins/src/libs/config/yaml_node.h:251-256 | the node becomes a mapping with the child stored under the given name |
| ConfigNode.Node.SetScalar | plugins/src/libs/config/yaml_node.h:759-764 | the text is stored even where determining its kind throws, which keeps the old kind |
| ConfigNode.Node.Find | plugins/src/libs/config/yaml_node.h:288-308 | finds the node at the path exactly if there is one, and otherwise names the first missing prefix |
| ConfigNode.Node.FindOrInsert | plugins/src/libs/config/yaml_node.h:310-326 | returns the node at the path after creating what was missing on the way, with nothing moved |
| ConfigNode.Node.SetValue | plugins/src/libs/config/yaml_node.h:590-599 | refuses an inner node without inserting anything; otherwise the tree is the old one with the path assigned |
| ConfigNode.Node.Erase | plugins/src/libs/config/yaml_node.h:328-367 | refuses a missing path or an inner node without a change; otherwise the tree is the pruned one |
| ConfigNode.Node.PruneUp | plugins/src/libs/config/yaml_node.h:349-366 | the upward loop unlinks the node and every ancestor this leaves without children |
| ConfigMerge.PlusAssign | plugins/src/libs/config/yaml_node.h:406-436 | throws exactly if a scalar meets a non-scalar, otherwise the left tree is the merged one; the right tree is untouched and shares no node with it |
| ConfigMerge.PlusChildren | plugins/src/libs/config/yaml_node.h:429-432 | merging the children in any order adds up to merging the subtree |
| ConfigListing.StrSplit | plugins/src/libs/utils/misc/string_split.h:57-68 | yields the non-empty stretches between slashes in order |
| ConfigListing.SplitAtSlash | plugins/src/libs/utils/misc/string_split.h:57-68 | the elements on the two sides of a slash follow each other |
| ConfigListing.SplitPlain | plugins/src/libs/utils/misc/string_split.h:57-68 | a string without a slash is its only element, the empty one has none |
| ConfigListing.SplitOfPathString | plugins/src/libs/config/yaml_node.h:818-830 | splitting the path string under which a leaf is listed gives its path back, so path strings are unique |
| ConfigListing.EnumLeafs | plugins/src/libs/config/yaml_node.h:818-830 | enters every leaf below the node under its key, keeps the other entries and adds nothing else |
| ConfigListing.ListedIsFound | plugins/src/libs/config/yaml_node.h:288-308 | looking up a listed path string leads to the node listed under it |
| ConfigListing.DiffKeys | plugins/src/libs/config/yaml_node.h:467-487 | the two loops return, without duplicates, the keys in only one listing or with different nodes |
| ConfigListing.Diff | plugins/src/libs/config/yaml_node.h:459-490 | returns without duplicates precisely the path strings on which the leaf maps differ |
| ConfigListing.DiffIsSymmetricAndExact | plugins/src/libs/config/yaml_node.h:459-490 | the difference is symmetric, and empty only for equal leaf maps |
| ConfigListing.Search | plugins/src/libs/config/yaml.cpp:1193-1208 | for the path string of a node, with or without a slash at its end, lists exactly the leaves strictly below it, under the path strings and with the nodes of the iteration; the whole iteration for "" and "/"; nothing if there is no such node |
| ConfigListing.SearchIsRestriction | plugins/src/libs/config/yaml.cpp:1186-1208 | for a string in path form search is the iterator restricted to keys extending it by whole elements; for any other string the keys are disjoint |
| ConfigListing.EmptySearchIsIteration | plugins/src/libs/config/yaml.cpp:1186-1208 | search of the empty string is the full iteration |
| ConfigDocument.Emit | plugins/src/libs/config/yaml_node.h:848-868 | the emitted document is conflict-free and has exactly the texts of the leaves; nothing is emitted for a childless node |
| ConfigDocument.Walk | plugins/src/libs/config/yaml.cpp:734-744 | following all but the last element of a key inserts what is missing |
| ConfigDocument.ReadEntry | plugins/src/libs/config/yaml.cpp:731-761 | an entry whose place is free fails exactly if some scalar in it has no kind, and otherwise its texts become leaves |
| ConfigDocument.Redefine | plugins/src/libs/config/yaml.cpp:749-755 | an existing scalar is not replaced by a non-scalar; anything else overwrites the text |
| ConfigDocument.ReadConfigDoc | plugins/src/libs/config/yaml.cpp:723-763 | a conflict-free document read at a childless node fails exactly if some scalar has no kind, and otherwise its texts are the new leaves |
| ConfigDocument.NextEntry | plugins/src/libs/config/yaml.cpp:731-761 | reading one more entry extends what was read, without disturbing it |
| ConfigLoad.WorklistShrinks | plugins/src/libs/config/yaml.cpp:532-553 | with every queued entry weighing one plus its includes, each turn makes the worklist lighter |
| ConfigLoad.AcyclicEnds | plugins/src/libs/config/yaml.cpp:532-553 | for an acyclic include graph the worklist is empty after as many turns as it weighs |
| ConfigLoad.EmptiesIff | plugins/src/libs/config/yaml.cpp:532-553 | apart from failing reads, the worklist becomes empty exactly if no file queued leads into an include cycle |
| ConfigLoad.CyclesNeverLoad | plugins/src/libs/config/yaml.cpp:532-553 | a load that is led into a cycle never succeeds: after any number of turns a read has failed or the worklist is not empty |
| ConfigLoad.OneTurnLess | plugins/src/libs/config/yaml.cpp:532-553 | a worklist that leads into no cycle has one turn less to go after each turn, and still leads into none |
| ConfigLoad.OneRound | plugins/src/libs/config/yaml.cpp:532-553 | everything queued already is read before anything it queues |
| ConfigLoad.AcyclicHasNoCycle | plugins/src/libs/config/yaml.cpp:532-553 | with includes that fall in rank no queue leads into a cycle |
| ConfigLoad.LoadIsOverlay | plugins/src/libs/config/yaml.cpp:519-553 | a load that does not fail is the left-to-right overlay of the files in queue order |
| ConfigLoad.LastFileWins | plugins/src/libs/config/yaml.cpp:545-549 | for conflict-free files every leaf has the value of the last file defining it |
| ConfigLoad.SecondIncludeWins | plugins/src/libs/config/yaml.cpp:532-553 | of two files included one after the other the second decides a path both define, unless the including file has an inner node there |
| ConfigLoad.MissingFileFails | plugins/src/libs/config/yaml.cpp:532-549 | a missing file makes the load fail, or is passed over if it may be missing |
| ConfigFiles.ReadMetaDoc | plugins/src/libs/config/yaml.cpp:639-721 | the queue grows by what each include stands for, in the order of the list: a file under its absolute or prefixed name, a directory followed by its files, each with the ignore flag; the host file is set; it throws exactly for an empty include, a missing directory or a second host file |
| ConfigFiles.HostMustNotInclude | plugins/src/libs/config/yaml.cpp:555-572 | a host file that includes another file makes the load fail |
| ConfigFiles.ReadYamlFile | plugins/src/libs/config/yaml.cpp:502-517 | the tree of a file has exactly the leaves of its configuration document |
| ConfigFiles.MergedLeaves | plugins/src/libs/config/yaml.cpp:545-549 | merging a file throws exactly on a leaf clash, and otherwise overlays its leaves |
| ConfigFiles.MergeFile | plugins/src/libs/config/yaml.cpp:545-549 | the effective tree shares no node with the merged one, which can be deleted |
| ConfigFiles.LoadFiles | plugins/src/libs/config/yaml.cpp:519-553 | the worklist loop ends and computes the load of the queue on the leaf maps |
| ConfigFiles.ReadHost | plugins/src/libs/config/yaml.cpp:555-572 | the overrides are read last, may be missing, must not include anything, and are merged into the effective tree |
| ConfigFiles.ReadYamlConfig | plugins/src/libs/config/yaml.cpp:519-572 | succeeds exactly if the load on the leaf maps does, with two trees that have its leaves and share no node |
| ConfigOverrides.LoadedIsConsistent | plugins/src/libs/config/yaml.cpp:555-572 | after a load the overrides are visible exactly if none of them is an inner node of the base |
| ConfigOverrides.ReproducibleIff | plugins/src/libs/config/yaml.cpp:519-572 | rebuilding from base and overrides gives the live tree exactly if no override path has an element "root", every base leaf is still visible and no visible leaf has a text without a kind |
| ConfigOverrides.SetKeepsBase | plugins/src/libs/config/yaml.cpp:1014-1047 | a setter keeps the base leaves visible exactly if it does not go below one |
| ConfigOverrides.EraseKeepsBase | plugins/src/libs/config/yaml.cpp:1104-1109 | an erasure keeps them visible exactly if it does not erase one |
| ConfigOverrides.SetKeepsTrace | plugins/src/libs/config/yaml.cpp:1014-1047 | a setter with any value that the overrides take if the effective tree does keeps every override visible unless the base or a value without a kind hides it, and every other visible leaf an override or from the base |
| ConfigOverrides.EraseKeepsTrace | plugins/src/libs/config/yaml.cpp:1104-1109 | so does an erasure, torn ones included |
| ConfigOverrides.HiddenOverrideIsErased | plugins/src/libs/config/yaml.cpp:1104-1109 | the input at which an erasure is refused after it has removed the override |
| ConfigRuns.RunKeeps | plugins/src/libs/config/yaml.cpp:1014-1109 | over every run of erasures and of setters with values that have a kind the overrides stay visible, and what is visible is an override or from the base |
| ConfigRuns.RunKeepsTrace | plugins/src/libs/config/yaml.cpp:1014-1109 | over every run of setters and erasures, whatever they return, visible leaves and overrides stay accounted for, both those in memory and those written last |
| ConfigRuns.HiddenIff | plugins/src/libs/config/yaml.cpp:1014-1109 | after any run a leaf visible at first is hidden exactly if a call went below it or erased it and no later one set it again |
| ConfigRuns.TornIff | plugins/src/libs/config/yaml_node.h:730-751 | after any run the visible leaves whose text has no kind are those of calls that no later call has replaced, gone below or erased |
| ConfigRuns.StoredNames | plugins/src/libs/config/yaml.cpp:808-814 | the written overrides name "root" exactly if a setter made such an override and no call dropped it up to the last one that wrote |
| ConfigRuns.RunSurvivesReload | plugins/src/libs/config/yaml.cpp:1014-1109 | after any run of setters and erasures, throwing ones included, base files and written overrides give the live tree exactly if none of the three has happened |
| ConfigRuns.SettersLoseForGood | plugins/src/libs/config/yaml.cpp:1014-1047 | without erasures a base leaf is lost exactly if some call that is let through goes below one |
| ConfigPair.SetTrees | plugins/src/libs/config/yaml.cpp:1014-1018 | for any two trees: a setter goes through exactly if neither tree has an inner node at the path and the value has a kind; the overrides change only then, the effective tree exactly as it lets it through |
| ConfigPair.EraseTrees | plugins/src/libs/config/yaml.cpp:1104-1108 | for any two trees: an erasure goes through exactly if both let it, otherwise the effective tree is untouched, and the overrides have lost the path all the same exactly if it is an override that is not visible |
| ConfigOverrides.CoveredInner | plugins/src/libs/config/yaml.cpp:1014-1018 | the overrides do not refuse a path the effective tree lets through as long as every override is, or hides behind, a leaf of it |
| ConfigOverrides.UnshownOverrideIsSet | plugins/src/libs/config/yaml.cpp:1014-1018 | an input at which the overrides refuse what the effective tree has taken |
| ConfigPair.TornSet | plugins/src/libs/config/yaml_node.h:730-751 | a setter that throws over its value has changed the effective tree |
| YamlConfiguration.YamlConfiguration.SetValue | plugins/src/libs/config/yaml.cpp:1014-1047 | both trees as above, then the host file holds the overrides, or the call throws because there is none |
| YamlConfiguration.YamlConfiguration.Erase | plugins/src/libs/config/yaml.cpp:1104-1109 | both trees as above; the host file is written exactly if both let the erasure |
| YamlConfiguration.YamlConfiguration.WriteHostFile | plugins/src/libs/config/yaml.cpp:808-814 | replaces the host file, and nothing else, by a dump of the overrides |
| YamlConfiguration.YamlConfiguration.Load | plugins/src/libs/config/yaml.cpp:445-449 | the two trees hold what the files load to |
| YamlConfiguration.YamlConfiguration.FamEvent | plugins/src/libs/config/yaml.cpp:575-599 | afterwards the visible leaves are those of the files, swapped or not; exactly the differing paths are reported, each once; after a swap trees and host file name are as after a load; a failing load changes nothing |
| ConfigReload.DumpedLeaves | plugins/src/libs/config/yaml.cpp:723-761 | reading an emitted tree gives its leaves back |
| ConfigReload.SameLoad | plugins/src/libs/config/yaml.cpp:519-553 | writing a file that loading does not consult does not change the load |
| ConfigReload.FreshlyLoaded | plugins/src/libs/config/yaml.cpp:519-572 | what a load of clean files leaves: both trees typed and well-formed, every base leaf visible, the overrides those of the host file |
| ConfigReload.LoadedAgain | plugins/src/libs/config/yaml.cpp:519-572 | with only the host file changed, loading overlays the same base files with what it holds, or fails on a clash |
| ConfigReload.RootIsVisible | plugins/src/libs/config/yaml_node.h:414-419 | if nothing visible has a path element "root", no override has one |
| ConfigReload.RereadIff | plugins/src/libs/config/yaml.cpp:575-599 | a file event reads the live tree without a change exactly if it is reproducible, clashes and paths with "root" included |
| ConfigReload.CallRest | plugins/src/libs/config/yaml.cpp:1014-1109 | any calls of the setters and of erase on the object give the trees of the run on the leaf maps, the results it says, and a host file with the overrides written last |
| ConfigReload.ChangeWriteReload | plugins/src/libs/config/yaml.cpp:575-599 | load, any calls of the setters and of erase, file event: with a host file the event finds no change exactly if the run does not spoil the tree; without one exactly if it left the visible leaves as loaded |
| Barrier.InterruptibleBarrier.WaitUntilBlocked | plugins/src/libs/core/threading/interruptible_barrier.cpp:231-278 | from taking the mutex to blocking or leaving: opens a round, joins one, or returns at once on an abandoned barrier |
| Barrier.InterruptibleBarrier.WaitAgain | plugins/src/libs/core/threading/interruptible_barrier.cpp:264-284 | one evaluation of the wait loop and what follows when it ends |
| Barrier.RoundsStayApart | plugins/src/libs/core/threading/interruptible_barrier.cpp:231-291 | in every interleaving of exactly count threads without timeouts and interruptions all threads are in one round, or in two with the older one finished |
| Barrier.RoundsNeverMix | plugins/src/libs/core/threading/interruptible_barrier.cpp:231-291 | no thread leaves a round before all have joined it, whoever opens a round finds that all have read the flag of the last, and every call returns true |
| Barrier.EverybodyReturns | plugins/src/libs/core/threading/interruptible_barrier.cpp:258-291 | once all have joined, from every state that untimed calls can reach, the round can end with every thread out of wait, having returned true |
| Barrier.PassedAreRecorded | plugins/src/libs/core/threading/interruptible_barrier.cpp:237-256 | from the start, in all runs with timeouts and interruptions, the passed list has each thread that joined the round once, and as many entries as the counter is down |
| Barrier.AbandonedIsFrozen | plugins/src/libs/core/threading/interruptible_barrier.cpp:237-249 | after a timeout or interruption with threads missing, counter and passed list never change again |
| Barrier.AbandonedDoesNotBlock | plugins/src/libs/core/threading/interruptible_barrier.cpp:242-288 | in every run, once a barrier is abandoned every call returns at once, every woken thread leaves, and none goes on to the plain barrier |
| Barrier.InterruptThrows | plugins/src/libs/core/threading/interruptible_barrier.cpp:264-275 | after an interruption every thread that comes back from the condition variable throws |
| Barrier.TimeoutRecordsArrivals | plugins/src/libs/core/threading/interruptible_barrier.cpp:251-267 | in every run, after a timeout the passed list is exactly the threads that had joined by that time, each once, and callers that leave its wait loop get false: for good if threads were missing, until the next call if the last had just arrived |
| ThreadWakeup.Thread.WakeUp | plugins/src/libs/core/threading/thread.cpp:941-963 | throws exactly if a barrier is set, otherwise one more wakeup is pending, or exactly one when coalescing |
| ThreadWakeup.Thread.WakeUpWith | plugins/src/libs/core/threading/thread.cpp:970-995 | throws exactly for no barrier, or if one is set and the thread is not waiting; otherwise one more wakeup is pending, the barrier is stored and the thread is no longer waiting |
| ThreadWakeup.Thread.TakeBarrier | plugins/src/libs/core/threading/thread.cpp:914-917 | hands the barrier to the run loop and clears it |
| ThreadWakeup.Thread.SleepUnlessPending | plugins/src/libs/core/threading/thread.cpp:926-930 | sleeps exactly if nothing is pending, otherwise consumes one wakeup |
| ThreadWakeup.RunsAreValid | plugins/src/libs/core/threading/thread.cpp:881-995 | in every interleaving a thread counted as waiting has nothing pending and no barrier, and accepted barriers are taken and waited for at most once, in order |
| ThreadWakeup.WakeupsAreConserved | plugins/src/libs/core/threading/thread.cpp:941-995 | accepted wakeups are consumed cycles plus pending ones exactly if no wakeup() came with coalescing on and something pending; otherwise there are fewer |
| ThreadWakeup.OnlyCoalescingMerges | plugins/src/libs/core/threading/thread.cpp:953-956 | a run that never switches coalescing on merges none |
| ThreadWakeup.CoalescingLoses | plugins/src/libs/core/threading/thread.cpp:953-956 | after any run without a barrier set, switching coalescing on and two wakeups leave one pending and lose the others |
| ThreadWakeup.NoLostWakeup | plugins/src/libs/core/threading/thread.cpp:881-995 | a thread blocked and not signalled has waited once at every accepted barrier, in order, and has run a cycle for every accepted wakeup exactly if none was merged |
| ThreadWakeup.SleepersWakeUp | plugins/src/libs/core/threading/thread.cpp:941-995 | in every run a sleeping thread accepts a wakeup, and any barrier, and is signalled |
| ThreadWakeup.EverythingIsServed | plugins/src/libs/core/threading/thread.cpp:881-930 | from every state of every run the run loop alone comes to sleep with nothing pending, having waited at every accepted barrier in order |
| ThreadFinalization.NeverHeldAndPrepared | plugins/src/libs/core/threading/thread.cpp:745-760 | finalization is never held back and prepared at once |
| ThreadFinalization.HoldHoldsBack | plugins/src/libs/core/threading/thread.cpp:376-379 | once an unprepared thread is told to hold finalization back nobody prepares it until it is told otherwise |
| ThreadFinalization.ReleaseLetsGo | plugins/src/libs/core/threading/thread.cpp:745-760 | once it is told otherwise a waiting caller can take the hold mutex, and prepares the thread if nobody is in its way |
| ThreadFinalization.SafeOnReturn | plugins/src/libs/core/threading/thread.cpp:367-392 | in every run and for every caller, concurrent loop or not: at the return from prepare_finalize() the thread can get into its loop without a later cancellation exactly if it is unprepared or in its loop |
| ThreadFinalization.NoLoopOncePrepared | plugins/src/libs/core/threading/thread.cpp:367-392 | without a concurrent loop the thread can get into its loop again, without a later cancellation, exactly if a cancellation came between giving the loop mutex back and returning |
| ThreadFinalization.ConcurrentLoopIsNotStopped | plugins/src/libs/core/threading/thread.cpp:380-388 | a run with a concurrent loop that ends prepared and in the loop |
| ThreadFinalization.OvertakingCancelRestarts | plugins/src/libs/core/threading/thread.cpp:473-482 | a run in which a cancellation overtakes the return and the loop runs again |
| ThreadFinalization.Finalization.SetPrepfinHold | plugins/src/libs/core/threading/thread.cpp:745-760 | throws exactly if asked to hold a prepared thread, and otherwise stores the flag |
| ThreadFinalization.Finalization.HeldBack | plugins/src/libs/core/threading/thread.cpp:376-379 | prepare_finalize() waits exactly while the flag is set |
| ThreadFinalization.Finalization.CallsLoop | plugins/src/libs/core/threading/thread.cpp:900-904 | loop() is called exactly if finalization is not prepared |
| ThreadList.ThreadList.UpdateBarrier | plugins/src/libs/core/threading/thread_list.cpp:861-872 | the new barrier counts the places of the list whose thread is not flagged bad, which are those in no bad list, and the caller |
| ThreadList.ThreadList.PushBack | plugins/src/libs/core/threading/thread_list.cpp:746-754 | appends unless sealed, and keeps flags, bad lists and barrier count in agreement |
| ThreadList.ThreadList.PushFront | plugins/src/libs/core/threading/thread_list.cpp:711-719 | the same at the front |
| ThreadList.ThreadList.Remove | plugins/src/libs/core/threading/thread_list.cpp:794-817 | removes every occurrence unless sealed, and keeps the agreement |
| ThreadList.ThreadList.EraseAt | plugins/src/libs/core/threading/thread_list.cpp:821-858 | removes one position unless sealed, and keeps the agreement |
| ThreadList.ThreadList.Clear | plugins/src/libs/core/threading/thread_list.cpp:780-788 | empties the list unless sealed, and keeps the agreement |
| ThreadList.ThreadList.SetMaintainBarrier | plugins/src/libs/core/threading/thread_list.cpp:322-331 | a barrier is maintained afterwards exactly if asked for, with the right count |
| ThreadList.ThreadList.WakeupUnlocked | plugins/src/libs/core/threading/thread_list.cpp:198-229 | calls exactly the unflagged threads, in order; fails if one of them throws, and complains exactly if the count differs |
| ThreadList.ThreadList.WakeupAndWait | plugins/src/libs/core/threading/thread_list.cpp:242-299 | the count never differs; on a timeout exactly the list members that the barrier's record does not name are flagged and recorded, and a new barrier is set up |
| ThreadList.LateAreAbsent | plugins/src/libs/core/threading/thread_list.cpp:262-276 | with the record of the barrier's run, the threads flagged are exactly the list members that had not joined the round when the caller timed out; none if all had |
| ThreadList.ThreadList.TryRecover | plugins/src/libs/core/threading/thread_list.cpp:340-370 | every waiting thread leaves every bad list and is unflagged, emptied lists go, and the agreement is kept |
| ThreadList.RecoveredRecords | plugins/src/libs/core/threading/thread_list.cpp:347-367 | the threads left in bad lists are those recorded before that are not waiting |
| ThreadList.RecoveredInOrder | plugins/src/libs/core/threading/thread_list.cpp:340-370 | the bad lists are gone through in order, and exactly those that all threads leave are dropped |
| ThreadList.SelectionsAreInOrder | plugins/src/libs/core/threading/thread_list.cpp:262-276 | the late threads, and those that stay or leave, are selected in list order |
| Framing.Serialize | plugins/src/libs/protobuf_comm/message_register.cpp:273-298 | the buffers handed to the write are the frame of the message in the chosen version, sizes and ids in network byte order |
| Framing.Receiver.HandleReadHeader | plugins/src/libs/protobuf_comm/client.cpp:244-277 | keeps the header and asks for as many bytes as it says, with room for them |
| Framing.Receiver.HandleReadMessage | plugins/src/libs/protobuf_comm/client.cpp:279-321 | delivers the message with the ids and the payload of this frame if the register takes it and refuses it otherwise, unaffected by bytes of earlier frames; overruns exactly without room for the ids, or past the size field |
| Framing.ReceiveOne | plugins/src/libs/protobuf_comm/client.cpp:244-321 | a fitting frame read by the two handlers is delivered if the register takes the message and refused otherwise |
| Framing.Receiver.ReadAll | plugins/src/libs/protobuf_comm/server.cpp:187-241 | the handlers taking turns receive exactly the complete frames of the stream |
| Framing.FrameRoundTrip | plugins/src/libs/protobuf_comm/client.cpp:356-383 | a frame comes back as its message, delivered or refused as the register says, with the machine right behind it, exactly if payload plus message header fit into the size field |
| Framing.HeaderSizes | plugins/src/libs/protobuf_comm/message_register.cpp:313-317 | what receiver and parser take the sizes of a sent frame to be, wrap-around included |
| Framing.StreamRoundTrip | plugins/src/libs/protobuf_comm/client.cpp:244-321 | the frames of any list of fitting messages are received as that list, each delivered if the register takes it and refused otherwise, ending between two frames |
| Framing.PiecesAddUp | plugins/src/libs/protobuf_comm/client.cpp:244-321 | a stream may arrive in any pieces |
| Framing.RefusalKeepsSync | plugins/src/libs/protobuf_comm/client.cpp:307-315 | which messages are refused does not move the frame boundaries |
| SendPump.StreamPump.Send | plugins/src/libs/protobuf_comm/client.cpp:385-398 | queues the entry if a write is under way and otherwise starts one |
| SendPump.StreamPump.HandleWrite | plugins/src/libs/protobuf_comm/client.cpp:323-349 | goes on with the oldest queued entry, becomes inactive, or after an error does nothing |
| SendPump.StreamIsFifo | plugins/src/libs/protobuf_comm/server.cpp:127-179 | at most one write is outstanding, a waiting entry implies an active pump, and written, outstanding and queued entries are the sends in order |
| SendPump.StreamDrains | plugins/src/libs/protobuf_comm/client.cpp:323-349 | without a failed write everything sent is out once nothing is outstanding |
| SendPump.FailedWriteIsLost | plugins/src/libs/protobuf_comm/client.cpp:345-348 | in every run a write that fails is lost, and no other one is issued for it |
| SendPump.NothingAfterFailure | plugins/src/libs/protobuf_comm/client.cpp:345-348 | after a failed write nothing is written again, and the writes issued are a prefix of the sends |
| SendPump.PeerPump.StartSend | plugins/src/libs/protobuf_comm/peer.cpp:674-719 | starts the oldest entry unless there is none or one is under way |
| SendPump.PeerIsFifo | plugins/src/libs/protobuf_comm/peer.cpp:524-581 | at most one datagram is under way, in the order of the calls, and a waiting entry of an idle pump has a start_send() coming |
| SendPump.PeerDrains | plugins/src/libs/protobuf_comm/peer.cpp:399-411 | once resolved everything is out when nothing is under way or due, even after errors; before that, or unresolvable, nothing is |

## Left out

- List-valued and null leaves, `set_list` and tag validation: the configuration laws are about scalar leaves.
- YAML text: a document is a value, a file is none, one or two documents; parse errors are not modelled.
- Number formats: which texts are numbers is left open, only the order in which the kinds are tried is kept.
- ConfigDocument.ReadEntry: does not model the empty key "", which the code stores as a node of that name (a leaf that is listed but cannot be looked up, since the splitter drops empty elements), nor a key of slashes only, for which it reads past an empty vector.
- ConfigDocument.ReadConfigDoc: the same two keys are excluded from documents.
- Documents with conflicting keys: `ReadConfigDoc` has the branches, but what they lead to is stated only for a single existing key (`Redefine`).
- ConfigReload.ChangeWriteReload: says nothing of base files that include the host file themselves.
- ConfigFiles.ReadYamlConfig: loads whose queue leads into an include cycle are excluded, as the original need not come to an end there; what it does is stated about the worklist (`CyclesNeverLoad`).
- After a load that throws, which of the fields of the object are already replaced.
- A host file that lies in an included directory: writing it leaves the directory listings alone in the model.
- File watching and the change handlers; `FamEvent` returns the paths they are called with.
- `Barrier` liveness: when a timeout races with the last arrival the flag for the plain barrier can be overwritten, and a release is claimed only without timeouts (`EverybodyReturns`); `reset()` and barriers on a caller's mutex are not modelled.
- Reclaiming barrier objects, `copy` and assignment of thread lists, and starting, cancelling, joining or detaching threads.
- `once()`, `wait_loop_done()` and the mutex against starving the loop, which do not change who may be in the loop.
- Threads of one list whose flags another list changes: `Valid` is about threads only this list flags.
- `waiting()`, and whether the barrier's wait timed out, are parameters of the list methods; that the record handed over is that of the barrier is the subject of `LateAreAbsent`.
- Overrun: what a receiver makes of a header that promises fewer bytes than the message header needs is left open.
- The datagram side of the broadcast peer, where sender and receiver of the old header disagree on the size field, and its encryption.
- Sockets, signals, protobuf encoding and allocation failures; a payload is a sequence of bytes and the message register an arbitrary predicate.
- The simulation plugins: mostly physics and messaging.
