# Verification of stateful algorithms in the OpenBMC build tree

A Dafny model of the parts of BitBake, and of a few scripts around it, that keep state in ways that are easy to
get wrong, with proofs of what they are for. `dafny verify dfyconfig.toml` checks all of it.

- **Task hashes** (`Reachability`, `Dependencies`, `TaskHashes`, `Emission`): the worklists of `data.py` that close
  over variable dependencies, the base hash built from the closure, and the function emitters.
- **Caches** (`SharedCache`, `CacheServer`, `VirtualNames`, `RecipeCache`): processes that share one cache file
  through locks and per-process files, names of recipe variants, and the validity of cached recipes.
- **Parsed code** (`CodeResults`, `CodeCache`, `CodeSharing`): parsers that answer from a cache, and the way of their
  results through the shared cache.
- **Copy-on-write dictionaries** (`CowLayers`, `CowDict`, `CowRuns`): lookup through levels, with deletion marks and
  copies on reading, against ordinary dictionaries; on the heap, and over whole runs.
- **Recipe tasks** (`TaskChains`, `TaskEdits`, `FifoReader`): the search between two tasks, edits of the task graph,
  and the reader of the message pipe.
- **File watching** (`EventRecords`, `EventText`, `Paths`, `NormalPaths`, `FileTree`, `MoveTracking`): the kernel's
  event records, normal paths, and watch paths that follow renames.
- **Settings** (`Settings`, `SettingsTree`), **disk monitor** (`DiskMonitor`), **SDK relocation** (`Relocation`,
  `ElfFile`, `ElfHeaders`, `ElfRelocator`, `ElfLayout`, `ElfTwice`, `ElfFits`): in-place merging of YAML trees,
  rate-limited warnings, and patching of ELF files. `ElfExample` has programs with every kind of patched part to which
  `ElfTwice.RelocateTwice` and `ElfFits.RaisesIff` apply.

Code that changes state is modelled by classes and methods with loops, each proved against a function of the old
state; what the program promises is then proved about those functions, over all inputs and all runs. `Lists`,
`TextParts`, `Bytes`, `NameOrder` and `Wrappers` hold what several modules share.

## Where the code does not do what one might expect

All but the last are stated by a lemma, with the exact condition where there is one.

- The pieces of a task hash are joined without a separator, so two changes can cancel out as soon as a task has a
  dependency (`TaskHashes.TextDeterminesValuesIff`, an input in `TaskHashes.TwoChangesCanCollide`); one change cannot.
- The variants `mc:M::x` and `mc:M:` of a recipe get one name (`VirtualNames.VariantsInjectiveIff`, an input in
  `VirtualNames.BareVariantsMeet`).
- A mutable value that is set again after its key was deleted stays invisible (`CowLayers.ReSetAfterDeleteIsLost`).
  So does one whose key is deleted in an ancestor later, even though no level mixes the two
  (`CowRuns.DeletingAboveHides`); `CowRuns.RunAgreesIff` has the exact condition over whole runs.
- The bound on low-space warnings fails for the action `WARN` when the free space can drop to zero: zero is also the
  mark for "nothing noted yet" (`DiskMonitor.BoundHoldsIff`).
- A cleanup more than a minute after a move's event makes the watch path wrong (`MoveTracking.MoveIsTrackedIff`, an
  input in `MoveTracking.LateCleanupMisleads`).
- `deltask` of a task that others named in advance does not restore their dependencies
  (`TaskEdits.DeleteUndoesAdd`).
- Removing the same settings twice adds back what was removed (`Settings.RemoveIdempotentIff`, an input in
  `Settings.RemovedTwiceIsBack`). The description of the flag says that entries are removed; an entry that the target
  lacks is added, and the model follows the code.
- A parser object that is used a second time can store a wrong line in the cache (`CodeResults.UsedPythonIff`,
  before the call `CodeResults.AlwaysRightPythonIff`, an input in `CodeResults.UsedParserStoresWrong`).
- Of the ELF magic number only the first byte counts, and the lengths of the library directories are little-endian
  for every file; `ElfFile.ParseElfHeader` and `Relocation.Lengths` follow the code.

## Model

| member | source | states |
|---|---|---|
| `Reachability.ReachesIsLeast` | poky/bitbake/lib/bb/data.py:384-393 | What a worklist gathers has a meaning of its own: reachability through walkable names is the least set closed under taking the dependencies. |
| `Reachability.SweepEnds` | poky/bitbake/lib/bb/data.py:385-393 | A worklist that is empty after a round has entered every name that is reachable and, but for names it may not walk, nothing else. |
| `Reachability.ReachesDependsOnClosure` | poky/bitbake/lib/bb/data.py:385-393 | Two graphs that agree on the start and on what is reached in one of them reach the same. |
| `Dependencies.GenerateDependencies` | poky/bitbake/lib/bb/data.py:371-395 | The loops end, whatever order the sets iterate in; the two tables are filled for exactly the listed tasks and what they reach without passing ignored names, each name with what the datastore says. |
| `Dependencies.AddTask` | poky/bitbake/lib/bb/data.py:382-393 | One worklist adds exactly its task and the reachable names, and leaves the entries of earlier worklists alone. |
| `Dependencies.ExpandRound` | poky/bitbake/lib/bb/data.py:386-393 | One round, in any order, enters the names of the round and collects what the next one starts from; a round of nothing but ignored names is the last. |
| `Dependencies.GenerateDependencyHash` | poky/bitbake/lib/bb/data.py:397-434 | No lookup misses a key; each listed task gets its closure, ascending and without repetition, and the hash of its piece list; the shared sets change by the removal of ignored names from the touched sets only, and still serve any later call. |
| `Dependencies.TaskClosure` | poky/bitbake/lib/bb/data.py:410-424 | With sets that other tasks share and have pruned, the closure is what the datastore says. |
| `Dependencies.PruneRound` | poky/bitbake/lib/bb/data.py:414-422 | A round that prunes the shared sets while it walks one of them prunes exactly the sets of the round and not the one it walks. |
| `Dependencies.TaskData` | poky/bitbake/lib/bb/data.py:402-429 | The pieces are the own value unless it is None, then for each name of the sorted closure the name and its value unless that is None. |
| `Dependencies.PrunedKeepsCover` | poky/bitbake/lib/bb/data.py:410-421 | Pruning shared sets in place keeps everything that later tasks need. |
| `TaskHashes.HashDependsOnClosureOnly` | poky/bitbake/lib/bb/data.py:401-432 | Datastores that agree on a task and its closure, up to ignored dependencies, give the same closure, pieces and hash. |
| `TaskHashes.TaskOrderIsIrrelevant` | poky/bitbake/lib/bb/data.py:401-432 | Two task lists in different orders, or with different members, give a common task the same closure and hash. |
| `TaskHashes.SingleChangeIsSeen` | poky/bitbake/lib/bb/data.py:425-431 | Changing the value of one covered name changes the hashed text exactly if the texts differ, a missing value reading as an empty one. |
| `TaskHashes.TextDeterminesValuesIff` | poky/bitbake/lib/bb/data.py:425-431 | The hashed text of a task determines the covered values, over all values and for every closure, exactly if nothing but the task is covered: the pieces are joined without a separator, and with any dependency two changes can cancel out. |
| `TaskHashes.TwoChangesCanCollide` | poky/bitbake/lib/bb/data.py:431-431 | A concrete pair of datastores that differ in two values and have the same hashed text. |
| `Emission.EmitFunc` | poky/bitbake/lib/bb/data.py:219-232 | The worklist ends and emits, after the root, the sorted rounds of the shell functions reachable through shell functions. |
| `Emission.RoundOrderIsExact` | poky/bitbake/lib/bb/data.py:222-232 | The rounds list exactly what is reachable, each name once. |
| `Emission.EmitFuncIsExact` | poky/bitbake/lib/bb/data.py:219-232 | The shell emitter writes the root and then every reachable shell function once and no other name. |
| `Emission.EmitFuncPython` | poky/bitbake/lib/bb/data.py:250-267 | The same for the Python emitter, whatever order the sets iterate in. |
| `NameOrder.AscendingUnique` | poky/bitbake/lib/bb/data.py:424-424 | Sorting a set of names has one possible result. |
| `NameOrder.BelowIff` | poky/bitbake/lib/bb/data.py:424-424 | For all strings, one sorts before another exactly if it is a proper prefix, or the characters at the first difference are in that order. |
| `TaskChains.TasksBetween` | poky/bitbake/lib/bb/build.py:1038-1065 | The search ends; it raises the circularity error exactly if a task that the start leads to without passing the end depends on itself through others, and otherwise returns, without repetition, exactly the tasks on chains from start to end. |
| `TaskChains.ChainWalk.FollowChain` | poky/bitbake/lib/bb/build.py:1046-1063 | The nested function leaves the shared chain as it was, adds exactly the tasks of the continuations of the chain that reach the end, and reports a circle only for a chain that visits a task twice. |
| `TaskChains.CycleIsRepeat` | poky/bitbake/lib/bb/build.py:1049-1062 | A chain visits a task twice exactly if there is a cycle of at least two tasks to be reached. |
| `TaskEdits.TaskStore.AddTask` | poky/bitbake/lib/bb/build.py:975-997 | The three flags afterwards are those of the specification: the task flagged and listed once, its new dependencies appended, itself put in front of the dependencies of the tasks that it precedes. |
| `TaskEdits.TaskStore.DelTask` | poky/bitbake/lib/bb/build.py:999-1014 | The task goes from the list, its flags go, and the first occurrence of its name goes from the dependencies of the tasks that stay. |
| `TaskEdits.EditsStayTidy` | poky/bitbake/lib/bb/build.py:975-1014 | Every sequence of edits keeps the list and all dependency lists free of repetitions. |
| `TaskEdits.DeletedIsGone` | poky/bitbake/lib/bb/build.py:999-1014 | After any edits, a deleted task is in no list and no listed task depends on it, although only one occurrence is removed; other dependencies stay. |
| `TaskEdits.DeleteUndoesAdd` | poky/bitbake/lib/bb/build.py:975-1014 | Deleting a newly added task restores the others' dependencies exactly if none of them mentioned it before. |
| `TaskEdits.EitherName` | poky/bitbake/lib/bb/build.py:975-1003 | A task can be given with or without its prefix, to both edits. |
| `TaskEdits.PrefixedNameIsTask` | poky/bitbake/lib/bb/build.py:975-1014 | A name with the prefix is itself listed, flagged, given its dependencies and put into those of the tasks that it precedes; deleting under that name takes it away, and other tasks stay. |
| `TaskEdits.ListedArePrefixed` | poky/bitbake/lib/bb/build.py:975-1014 | After any edits under any names, every listed task begins with the prefix. |
| `TaskEdits.FirstIsRemoved` | poky/bitbake/lib/bb/build.py:1005-1012 | Removing from a list takes the first occurrence and leaves all others in their places. |
| `TaskEdits.TaskStore.EditAll` | poky/bitbake/lib/bb/build.py:975-1014 | A sequence of calls leaves the flags as the specification of sequences says. |
| `TaskEdits.EditsGiveWalkableRecipe` | poky/bitbake/lib/bb/build.py:975-1014 | After any edits every task has the dependency list that the search between tasks looks up. |
| `FifoReader.FifoBuffer.ReadFifo` | poky/bitbake/lib/bb/build.py:459-497 | One call says what the complete messages of the buffer say, in order, keeps the rest, and stops at a message whose handling raises. |
| `FifoReader.RaisesIff` | poky/bitbake/lib/bb/build.py:466-494 | A message raises exactly if a part of it does not decode, or it is a debug message whose value is not a level, a space and a text. |
| `FifoReader.DispatchIff` | poky/bitbake/lib/bb/build.py:466-494 | For every codec, message and notice: the message is shown as the notice exactly if its command is one of those for this kind of notice and the rest is its text, for a debug message the level, a space and the text; or the notice is the warning that nobody knows the command. |
| `FifoReader.CommandAlone` | poky/bitbake/lib/bb/build.py:467-473 | A command without a space is handled as one with an empty text. |
| `FifoReader.NoticesArrive` | poky/meta/classes-global/logging.bbclass:17-105 | Whatever the logging commands of tasks write, in whatever chunks it arrives, the notices that were asked for are shown in order, and an unfinished message waits. |
| `FifoReader.ReadAppended` | poky/bitbake/lib/bb/build.py:460-497 | Reading two pieces at once is reading the first and then the second behind what was left. |
| `FifoReader.ChunkingInvariant` | poky/bitbake/lib/bb/build.py:460-497 | However a stream is cut into chunks, the same is said and the same is left. |
| `FifoReader.ReadInvertsFraming` | poky/bitbake/lib/bb/build.py:460-497 | A stream of NUL-terminated messages and a NUL-free tail is read as those messages in order, up to one that raises; the tail is what is left. |
| `FifoReader.EveryStreamIsFramed` | poky/bitbake/lib/bb/build.py:463-464 | Every stream is such a list of messages and a tail, so the two statements before cover all streams. |
| `SharedCache.StepKeepsInv` | poky/bitbake/lib/bb/cache.py:889-948 | In every state that the invariant allows, every step of every worker and of the merger keeps it: the locks exclude each other, an index lock has one holder, a worker's file is its own, nothing published is lost. |
| `SharedCache.NoFileIsOverwritten` | poky/bitbake/lib/bb/cache.py:897-908 | In every interleaving a worker opens its extras file only where there is none, and nobody but the merger touches a file that is completely written. |
| `SharedCache.MergedFileHasAllPublished` | poky/bitbake/lib/bb/cache.py:919-946 | In every interleaving, all entries published before a merge stores the cache are in the file that it stores, every value there comes from the merger, a leftover file or a published table under the same key, and is the published one wherever these agree. |
| `SharedCache.RunExtendsData` | poky/bitbake/lib/bb/cache.py:913-917 | No entry that the merger holds ever changes its value or goes away. |
| `SharedCache.MainIsWholeUnlessStoring` | poky/bitbake/lib/bb/cache.py:923-948 | The cache file is half written only while the exclusive lock is held. |
| `SharedCache.RetryBound` | poky/bitbake/lib/bb/cache.py:895-904 | How often a worker has gone on to the next index is at most the number of extras files and index locks. |
| `SharedCache.NoDeadlock` | poky/bitbake/lib/bb/cache.py:889-948 | While some process is in the middle of a call, some process can take a step. |
| `SharedCache.StepDecreases` | poky/bitbake/lib/bb/cache.py:889-948 | Every step that is not a new call brings the processes closer to rest, by a measure. |
| `SharedCache.RunsWithoutCallsAreBounded` | poky/bitbake/lib/bb/cache.py:897-911 | So a run without new calls has a bounded length; the retry loop ends in particular. |
| `CacheServer.MultiProcessCache.MergeInto` | poky/bitbake/lib/bb/cache.py:913-917 | Merging in place gives, table by table, the new entries and, where both have one, the old entry. |
| `CacheServer.MultiProcessCache.SaveMerge` | poky/bitbake/lib/bb/cache.py:919-948 | The listed files are merged in order, files that are unreadable or of another version are dropped, all of them are unlinked, and the tables are stored. |
| `CacheServer.MergeIsOneRun` | poky/bitbake/lib/bb/cache.py:919-948 | What the method computes is what the protocol's steps of one merge do, from any state in which the merge can start. |
| `VirtualNames.RoundTripIff` | poky/bitbake/lib/bb/cache.py:241-268 | Printing a file, class and multiconfig and reading the name back gives the three again, exactly under a condition on colons that puts none on the class. |
| `VirtualNames.RoundTrip` | poky/bitbake/lib/bb/cache.py:241-268 | For a file and a multiconfig without colons the round trip holds, whatever the class. |
| `VirtualNames.NamesSpelled` | poky/bitbake/lib/bb/cache.py:260-268 | The printed names, for every combination of class and multiconfig. |
| `VirtualNames.VariantsInjectiveIff` | poky/bitbake/lib/bb/cache.py:270-281 | Two variants of a file get one name exactly if they are equal, or both are bare variants of one multiconfig. |
| `VirtualNames.BareVariantsMeet` | poky/bitbake/lib/bb/cache.py:270-281 | For every file, multiconfig and class, two different variants with one name. |
| `VirtualNames.DifferentFilesDiffer` | poky/bitbake/lib/bb/cache.py:270-281 | Names of different colon-free files never meet. |
| `VirtualNames.OnlyEmptyVariantIsFile` | poky/bitbake/lib/bb/cache.py:274-281 | A variant has the file's own name exactly if it is empty. |
| `VirtualNames.MulticonfigVariantAgrees` | poky/bitbake/lib/bb/cache.py:335-341 | The keys made when a recipe is loaded print as the file, class and multiconfig they stand for, exactly if the class does not begin with a colon. |
| `VirtualNames.PlainVariantAgrees` | poky/bitbake/lib/bb/cache.py:260-281 | For other variants the two printers agree. |
| `RecipeCache.Cache.CacheValidUpdate` | poky/bitbake/lib/bb/cache.py:564-660 | True exactly if the cache is on and every thorough check holds; the recipe and its variants are then clean, and otherwise it is forgotten or made unclean as the branch says. |
| `RecipeCache.Cache.CacheValid` | poky/bitbake/lib/bb/cache.py:549-562 | The fast query runs the thorough checks once and then answers from the clean set. |
| `RecipeCache.Cache.Load` | poky/bitbake/lib/bb/cache.py:511-530 | The cached branch misses no key and gives, per variant, its name and one info per cache class. |
| `RecipeCache.Cache.Remove` | poky/bitbake/lib/bb/cache.py:662-672 | The name leaves both tables and nothing else does. |
| `RecipeCache.Cache.Serve` | poky/bitbake/lib/bb/cache.py:549-672 | A sequence of calls on a loaded cache leaves it as the specification of sequences says. |
| `RecipeCache.AskedIsThorough` | poky/bitbake/lib/bb/cache.py:549-660 | A query answers what the thorough checks would say now, even if they ran long ago. |
| `RecipeCache.EveryRunIsSound` | poky/bitbake/lib/bb/cache.py:549-672 | After any calls on recipe files: clean names are cached, and a clean recipe passes every thorough check with all its variants. |
| `RecipeCache.QueryAfterAnyRun` | poky/bitbake/lib/bb/cache.py:549-672 | After any such calls, a query is answered yes exactly if every thorough check holds. |
| `RecipeCache.RemovingAnyNameIff` | poky/bitbake/lib/bb/cache.py:662-672 | Removing any name keeps the answer about a clean recipe true to the thorough checks exactly if the name is the recipe itself, which is then not clean, or not one of its variants; so the restriction to recipe files is needed. |
| `CowLayers.ViewIsOverlayIff` | poky/bitbake/lib/bb/COW.py:53-112 | A lookup through the levels is the parent's view with the local writes and deletions put over it, exactly unless a mutable value was set below an immutable entry or a deletion of the same key. |
| `CowLayers.PlainWriteSeen` | poky/bitbake/lib/bb/COW.py:53-58 | A write or deletion is seen by its level and by the levels below that have no entry of their own, and by nobody else; other keys are not affected. |
| `CowLayers.MutableWriteSeen` | poky/bitbake/lib/bb/COW.py:53-78 | The same for a mutable value, which in addition is hidden by any immutable entry of the key. |
| `CowLayers.ReSetAfterDeleteIsLost` | poky/bitbake/lib/bb/COW.py:54-58 | A mutable value set again after a deletion is not found: the deletion's marker hides it. |
| `CowLayers.CopyIsInvisible` | poky/bitbake/lib/bb/COW.py:60-78 | The copy that a read for writing stores at a level changes no lookup, at any level. |
| `CowRuns.StepAgreesIff` | poky/bitbake/lib/bb/COW.py:44-107 | In a tree of levels that all look like ordinary dictionaries with one entry per key, a call keeps every lookup at every level as in ordinary dictionaries exactly if it is careful: no immutable value or deletion above a mutable value of the same key, and no mutable value at or below an immutable one or a deletion. |
| `CowRuns.RunAgreesIff` | poky/bitbake/lib/bb/COW.py:44-107 | From one empty level on, whatever levels are made and whatever is set, deleted, read and changed: lookups are at all times those of ordinary dictionaries exactly if every call is careful when it is made. |
| `CowRuns.DeletingAboveHides` | poky/bitbake/lib/bb/COW.py:53-107 | For every key: a level sets a mutable value, its parent deletes the key, and the level no longer finds its own value. |
| `CowLayers.ItemsAreLive` | poky/bitbake/lib/bb/COW.py:123-146 | Iterating over items lists exactly the live keys. |
| `CowLayers.ItemValues` | poky/bitbake/lib/bb/COW.py:134-145 | Each listed item carries what a lookup of its key yields. |
| `CowLayers.ItemsListedOnceIff` | poky/bitbake/lib/bb/COW.py:123-146 | Each live key is listed once, exactly if no live key has entries of both kinds. |
| `CowDict.Level.SetItem` | poky/bitbake/lib/bb/COW.py:53-58 | Setting changes one attribute of one level of the heap; what every level of the tree sees changes as one write in its stack of layers. |
| `CowDict.Level.DelItem` | poky/bitbake/lib/bb/COW.py:106-107 | Deleting is a write of the marker at this level, and is seen as such in the whole tree. |
| `CowDict.Level.GetMutable` | poky/bitbake/lib/bb/COW.py:60-78 | A mutable value of a parent is copied into this level unless only reading is promised; the result holds what the lookup finds. |
| `CowDict.Level.Lookup` | poky/bitbake/lib/bb/COW.py:88-104 | Whatever it copies, reading returns the view of this level and changes the view of no level. |
| `CowDict.Level.Mutate` | poky/bitbake/lib/bb/COW.py:60-98 | Changing a mutable value that was got for writing is a write at this level: ancestors and siblings do not see it. |
| `CowDict.Level.Cow` | poky/bitbake/lib/bb/COW.py:44-48 | A new level sees what its parent sees, and no level changes. |
| `CowDict.Level.IterItems` | poky/bitbake/lib/bb/COW.py:123-146 | The loop over the attribute names yields the items of the layered specification. |
| `EventRecords.DecodeEncode` | poky/bitbake/lib/pyinotify.py:1222-1242 | On any concatenation of 16-byte headers and padded names, decoding consumes the buffer and gives the same events in order. |
| `EventRecords.EncodeDecode` | poky/bitbake/lib/pyinotify.py:1222-1242 | A buffer that decodes without an error is the encoding of the records found: nothing is skipped or made up. |
| `EventRecords.Notifier.ReadEvents` | poky/bitbake/lib/pyinotify.py:1201-1242 | Below the threshold nothing happens; otherwise the decoded events are appended to the queue, with coalescing only the unknown ones, also those decoded before an error. |
| `EventRecords.Notifier.CoalesceEvents` | poky/bitbake/lib/pyinotify.py:1150-1167 | Switching coalescing off forgets the known events; the queue stays. |
| `EventRecords.Notifier.ProcessEvents` | poky/bitbake/lib/pyinotify.py:1244-1271 | The queue is taken in order and emptied, and the set of known events is cleared with coalescing on. |
| `EventRecords.FirstsAre` | poky/bitbake/lib/pyinotify.py:1234-1241 | The positions kept are ascending, and are those whose event is unknown and has no equal before it. |
| `EventRecords.FreshAreFirsts` | poky/bitbake/lib/pyinotify.py:1234-1241 | Coalescing keeps exactly the events at those positions, in order. |
| `EventRecords.ReadsAddUp` | poky/bitbake/lib/pyinotify.py:1234-1241 | Several reads between two rounds of processing act as one. |
| `EventText.KeyInjectiveIff` | poky/bitbake/lib/pyinotify.py:460-485 | The texts by which events are told apart are equal exactly if the events are, or one has an empty name and the other is named by two quotes; spaces, brackets and equal signs in names mislead nobody. |
| `EventText.TextIsKey` | poky/bitbake/lib/pyinotify.py:460-485 | The compared part is all of the text but its constant ends: the attributes in the order of their names, with their signs and quotes. |
| `EventText.NumberReads` | poky/bitbake/lib/pyinotify.py:470-475 | The digits of every number are those of its base and read as the number, with the usual signs for negative and for hexadecimal ones. |
| `Paths.ChildPath` | poky/bitbake/lib/pyinotify.py:724-724 | Joining a child's name to a normal path and normalising gives the child's path. |
| `Paths.StartsIff` | poky/bitbake/lib/pyinotify.py:778-785 | A path starts with another one and a slash exactly if it is properly below it, so a name that merely continues another is left alone. |
| `Paths.RestMoved` | poky/bitbake/lib/pyinotify.py:779-786 | Joining the destination and the rest of a path gives the path of the names put together. |
| `NormalPaths.NormPathSpells` | poky/bitbake/lib/pyinotify.py:724-724 | For every path, also with dots, empty parts and parent directories: normalising spells the place that the path leads to; of leading slashes two are kept, any other number is one. |
| `NormalPaths.JoinLeads` | poky/bitbake/lib/pyinotify.py:724-724 | A joined path leads from where the first leads along the second, and an absolute one replaces the first. |
| `NormalPaths.NormalStays` | poky/bitbake/lib/pyinotify.py:724-724 | Normalising a normal path changes nothing. |
| `FileTree.RenameMovesPaths` | poky/bitbake/lib/pyinotify.py:771-786 | In the file tree, where a rename changes one entry, exactly the paths at and below the renamed node change, by the new prefix. |
| `MoveTracking.SysProcessEvent.ProcessMovedFrom` | poky/bitbake/lib/pyinotify.py:718-726 | The source path is recorded under the cookie, with the time. |
| `MoveTracking.SysProcessEvent.ProcessMovedTo` | poky/bitbake/lib/pyinotify.py:728-747 | If the cookie is known the move is recorded under its source, and the source is returned. |
| `MoveTracking.SysProcessEvent.ProcessMoveSelf` | poky/bitbake/lib/pyinotify.py:762-798 | With a recorded move, every watch object at or below the source gets its path in the destination; otherwise the one path is marked once. |
| `MoveTracking.SysProcessEvent.Cleanup` | poky/bitbake/lib/pyinotify.py:657-668 | Records of more than a minute are dropped from both tables, and no others. |
| `MoveTracking.UnknownMoveIsMarked` | poky/bitbake/lib/pyinotify.py:786-798 | A move to an unknown place puts the mark behind the path once, and being told again changes nothing. |
| `MoveTracking.MoveIsTrackedIff` | poky/bitbake/lib/pyinotify.py:718-798 | For a rename between watched directories, also of a node that still has a record of an earlier rename, the three events make every watch path the path in the tree exactly if no cleanup in between was more than a minute late; one chance match of the mark is spelled out. |
| `MoveTracking.LateCleanupMisleads` | poky/bitbake/lib/pyinotify.py:657-798 | A tree, its watches and a rename with a late cleanup after which a watch path is wrong. |
| `MoveTracking.RunIsTracked` | poky/bitbake/lib/pyinotify.py:718-798 | After any run of such renames every watch path is the path of its node in the resulting tree, whatever old records are left. |
| `CodeResults.PythonResultIsTruth` | poky/bitbake/lib/bb/codeparser.py:292-334 | With collision-free hashes a new parser finds, in any code that is not all white space, the same on a hit in the table, on a hit in the extras and on a miss, raises exactly if the code does not parse, and leaves the tables right. |
| `CodeResults.ShellResultIsTruth` | poky/bitbake/lib/bb/codeparser.py:349-374 | The same for shell code. |
| `CodeResults.BlankIff` | poky/bitbake/lib/bb/codeparser.py:293-293 | Code is skipped exactly if it consists of white space; one other character anywhere is enough. |
| `CodeResults.VisitsAdd` | poky/bitbake/lib/bb/codeparser.py:233-263 | What a parser has found is kept, and visiting calls adds what a new parser would find in them. |
| `CodeResults.UsedPythonIff` | poky/bitbake/lib/bb/codeparser.py:292-334 | A parser used before that misses stores a right line exactly if the code holds everything the parser had found earlier. |
| `CodeResults.UsedShellIff` | poky/bitbake/lib/bb/codeparser.py:349-374 | The same for shell code, where earlier function definitions also hide commands. |
| `CodeResults.AlwaysRightPythonIff` | poky/bitbake/lib/bb/codeparser.py:292-334 | Known before the call: a parser stores a right line for every code it may miss on exactly if it has found nothing yet. |
| `CodeResults.AlwaysRightShellIff` | poky/bitbake/lib/bb/codeparser.py:349-374 | The same for shell code: exactly if it has seen no command and no function definition. |
| `CodeResults.UsedParserStoresWrong` | poky/bitbake/lib/bb/codeparser.py:292-334 | A parser with one finding, and the wrong line that it then stores for a code without any. |
| `CodeCache.PythonParser.ParsePython` | poky/bitbake/lib/bb/codeparser.py:292-334 | The loops over calls and cache lines, with interning, leave parser and tables as the specification says. |
| `CodeCache.ShellParser.ParseShell` | poky/bitbake/lib/bb/codeparser.py:349-374 | The same for shell code. |
| `CodeCache.SetCache.InternSet` | poky/bitbake/lib/bb/codeparser.py:63-72 | Interning a set gives that set, and forgets none. |
| `CodeCache.CodeParserCache.NewPythonCacheLine` | poky/bitbake/lib/bb/codeparser.py:137-143 | The line that is returned, new or shared, has the given contents. |
| `CodeCache.LinePartsInjective` | poky/bitbake/lib/bb/codeparser.py:88-92 | Lines with one hash are equal: the tuple that is hashed determines the line, in whatever order the words are found. |
| `CodeSharing.RunKeepsSound` | poky/bitbake/lib/bb/cache.py:889-948 | In every interleaving of workers and merger in which each worker publishes what it parsed after loading the cache file at some earlier point of the run, every entry that is held, written or about to be written is at all times what a new parser would find, if those at the start are. |
| `CodeSharing.ParseAll` | poky/bitbake/lib/bb/codeparser.py:292-374 | A process that parses these pieces of code, each with a new parser, publishes what the specification says. |
| `CodeSharing.EveryParseIsDirect` | poky/bitbake/lib/bb/codeparser.py:155-182 | After any such run, a process that loads the cache file and has parsed whatever it has parsed finds in any code what it would find without a cache. |
| `Settings.MergeAssociative` | meta-phosphor/recipes-phosphor/settings/phosphor-settings-manager/merge_settings.py:14-42 | Merging overrides one after the other is merging them into each other first, at every depth, also where a scalar meets a dict and the dict stays. |
| `Settings.MergeIdempotent` | meta-phosphor/recipes-phosphor/settings/phosphor-settings-manager/merge_settings.py:14-42 | Merging the same override again changes nothing. |
| `Settings.OverridesCombine` | meta-phosphor/recipes-phosphor/settings/phosphor-settings-manager/merge_settings.py:56-61 | A list of override files acts as one override. |
| `Settings.MergeAtDict` | meta-phosphor/recipes-phosphor/ipmi/phosphor-ipmi-host/merge_yamls.py:35-42 | At a path where the target has a dict, the result is the merge of what the two have there. |
| `Settings.MergeAtEntry` | meta-phosphor/recipes-phosphor/ipmi/phosphor-ipmi-host/merge_yamls.py:35-42 | Where the target has no dict, the override's value counts if it has one, with all that is below; otherwise the target's. |
| `Settings.RemoveIdempotentIff` | meta-phosphor/recipes-phosphor/settings/phosphor-settings-manager/merge_settings.py:34-41 | With the remove flag, merging twice is merging once exactly if the removal list meets dicts of the target all the way, or adds nothing but empty dicts: popped entries come back the second time. |
| `Settings.RemovedTwiceIsBack` | meta-phosphor/recipes-phosphor/settings/phosphor-settings-manager/merge_settings.py:34-41 | Any entry that is a scalar, removed and, with the same removal list, added again. |
| `SettingsTree.DictMerge` | meta-phosphor/recipes-phosphor/settings/phosphor-settings-manager/merge_settings.py:14-42 | The in-place merge makes the target the pure merge of the two, leaves the source as it was, and shares no dict with it. |
| `SettingsTree.CopyNode` | meta-phosphor/recipes-phosphor/settings/phosphor-settings-manager/merge_settings.py:41-41 | The deep copy has the same value and only new dicts. |
| `SettingsTree.ApplyOverrides` | meta-phosphor/recipes-phosphor/ipmi/phosphor-ipmi-host/merge_yamls.py:58-62 | The loop over the override files makes the target the fold of the merges. |
| `DiskMonitor.Monitor.Check` | poky/bitbake/lib/bb/monitordisk.py:195-260 | One round updates each key by its own check, and what is told about a key is what its check says. |
| `DiskMonitor.StopsOnceIff` | poky/bitbake/lib/bb/monitordisk.py:215-257 | In any run the build is told to stop exactly once if the action asks for it and some check trips, and never otherwise; a file system without inode counts trips no inode check once it has shown that. |
| `DiskMonitor.WarningsBounded` | poky/bitbake/lib/bb/monitordisk.py:215-246 | In any run the warnings about a nonzero low value number at most the bound, times one more than the warnings that noted zero. |
| `DiskMonitor.BoundHoldsIff` | poky/bitbake/lib/bb/monitordisk.py:215-220 | The bound alone holds in every run exactly if the action stops the build or the minimum is at most one more than the interval: otherwise a noted zero starts over. |
| `DiskMonitor.SawtoothWarns` | poky/bitbake/lib/bb/monitordisk.py:217-220 | The family of runs in which the warnings have no bound. |
| `DiskMonitor.BoundIsReached` | poky/bitbake/lib/bb/monitordisk.py:217-220 | The bound is met by a run in which nothing runs out, so it cannot be lowered. |
| `Relocation.SubLeavesNoMark` | poky/scripts/relocate_sdk.py:157-157 | After a substitution of an absolute prefix without a hash sign no mark is left, and none is put together by accident. |
| `Relocation.SubReplaces` | poky/scripts/relocate_sdk.py:157-157 | Every text can be cut at its marks, taken from the left, and the result has the same pieces with the prefix between them. |
| `Relocation.CutGivesSub` | poky/scripts/relocate_sdk.py:157-157 | Every such cut gives the result. |
| `Relocation.PathIsPatched` | poky/scripts/relocate_sdk.py:157-179 | A padded path gets the prefix for its marks and is padded again, exactly if there is room for it and a NUL. |
| `Relocation.PathsAre` | poky/scripts/relocate_sdk.py:186-191 | The section spells the strings that are read, up to its end or the first empty one. |
| `Relocation.PatchTwice` | poky/scripts/relocate_sdk.py:171-179 | A patched part, patched again, stays as it is. |
| `Relocation.SysdirsTwice` | poky/scripts/relocate_sdk.py:186-203 | The rewritten section reads as the substituted strings, and rewriting it again changes nothing. |
| `Relocation.LengthsAt` | poky/scripts/relocate_sdk.py:194-200 | Entry i of the lengths decodes to the length of string i. |
| `ElfFile.InterpIsPatched` | poky/scripts/relocate_sdk.py:92-111 | A patched interpreter is the new path and at least one NUL; no other byte changes; the file keeps its size exactly if it held the whole segment. |
| `ElfFile.IsHostsIff` | poky/scripts/relocate_sdk.py:92-98 | An interpreter is left alone exactly if one of the host's directories stands where it begins, whatever its length. |
| `ElfFile.NameAtIs` | poky/scripts/relocate_sdk.py:141-141 | A section's name ends before its NUL; without one the last byte is lost. |
| `ElfFile.WriteIs` | poky/scripts/relocate_sdk.py:101-109 | Every byte of the file after a write at a place, also beyond the end: the written ones, the old ones, and NULs between. |
| `ElfRelocator.ChangeInterpreter` | poky/scripts/relocate_sdk.py:72-112 | The loop over the program headers leaves the file as the specification says, in every branch and for every way to fail. |
| `ElfRelocator.WriteSlots` | poky/scripts/relocate_sdk.py:168-184 | The slots are patched one after the other, reading each where the last was written. |
| `ElfRelocator.ChangeDlSysdirs` | poky/scripts/relocate_sdk.py:114-209 | The loop over the sections and the rewriting of the library directories leave the file as the specification says. |
| `ElfRelocator.Relocate` | poky/scripts/relocate_sdk.py:226-260 | A whole file: header, interpreter, sections. |
| `ElfLayout.SlotsArePatched` | poky/scripts/relocate_sdk.py:168-184 | Every full slot of a section inside the file holds its patched path, and no byte outside the section changes. |
| `ElfLayout.SlotsTwice` | poky/scripts/relocate_sdk.py:168-184 | Patching the slots again changes nothing. |
| `ElfTwice.EntryIsLength` | poky/scripts/relocate_sdk.py:185-209 | In the written file, entry i of the lengths section is the length of string i of the directories section. |
| `ElfTwice.RelocateTwice` | poky/scripts/relocate_sdk.py:226-260 | In a file whose patched areas lie inside it and apart, relocating that does not raise keeps the size and all bytes outside those areas, and relocating again changes nothing. |
| `ElfFits.RaisesIff` | poky/scripts/relocate_sdk.py:72-260 | When that is, told from the file before: the program headers and sections can be read, each path still fits with the prefix in it, and the library directories come with their lengths. |
| `ElfExample.ProgramRelocates` | poky/scripts/relocate_sdk.py:36-260 | Both apply to a program with an interpreter, a compiler prefix slot, a cache path and the two library sections, for any contents: it raises exactly if one of two paths does not fit. |
| `ElfHeaders.HeaderRoundTrip` | poky/scripts/relocate_sdk.py:32-70 | For 32 and 64 bits, both byte orders and all field values, a header is read as it was written, whatever the fields hold that are not looked at. |
| `ElfHeaders.HeaderWasWritten` | poky/scripts/relocate_sdk.py:32-70 | And whatever is accepted as a header is what was written for it. |
| `ElfHeaders.SegmentIff` | poky/scripts/relocate_sdk.py:72-88 | A program header is read as a segment exactly if its bytes are those of the segment, in the width and order of the file. |
| `ElfHeaders.SectionIff` | poky/scripts/relocate_sdk.py:114-139 | The same for a section header. |

## Left out

- `build_dependencies` (its contents and the exceptions it raises), `expandKeys`, and what `emit_var` writes: they rest on the datastore; dependencies and values are a function of the name, over a finite universe of names.
- `emit_func` also emits the plain variables first; only the functions are modelled. The root may be emitted again when it calls itself.
- Locks, pickling, stat, hashing, compiling and the clock are parameters or steps. Hashes of code, sets and tuples are taken as collision-free where a statement says so.
- A process that dies while it holds a lock or has a half-written file, pickle errors other than the end of the file and I/O errors, and more than one merger at a time.
- `Cache.load` on a recipe that is not valid: the call there passes an undefined name; only the cached branch is modelled.
- The text of file checksum lists is taken as already split into names and expected existence.
- RecipeCache.EveryRunIsSound: time stamps, file existence and appends stay as they are over a run.
- Copy-on-write: values that are themselves copy-on-write dictionaries, the default argument of lookups, `__revertitem__`, `iterkeys` (which yields deleted keys), iteration that copies as it goes, the empty tuple as a value, keys that begin with two underscores or end with the suffix of mutable names.
- CowDict.Level.SetItem: a mutable value must not be stored at another place already; Python would alias the two.
- TaskEdits.TaskStore.DelTask: asks for a task list without repetitions, which all edits keep; `list.remove` while another list is walked is not otherwise modelled.
- The UTF-8 decoding and the integer parsing of pipe messages are parameters. The logging functions only record what is said.
- Event names are bytes; decoding them may raise, and that is not modelled. The text of an event is that of the plain output format, not the coloured one.
- Watches on paths that begin with `..`, hard links of watched files, the automatic watching of directories that are moved in, and events of two renames that interleave.
- The rename of a node that is not watched itself, or whose directories are not: the code marks the path or knows nothing.
- Kernel calls of the watch manager, `rm_watch` of subtrees, threads, polling and daemonising.
- `check_indent` and line numbers: what a piece of Python code contains is a function of its text. Errors in the middle of visiting calls count as code that does not parse, and what they leave in the parser object is not modelled. Nested parsing of expanded expressions is part of that function.
- YAML anchors, which make one dict appear at two places: the trees on the heap have no sharing. Lists count as scalars.
- SettingsTree.ApplyOverrides: the dispatch on file names and the files themselves; the remove flag is covered by `SettingsTree.DictMerge`.
- The parsing of the disk monitor's configuration, the mounted device, and the event about disk usage that ends a round.
- Relocation.Sub: a backslash in the prefix, which the regular-expression template would interpret; statements about the prefix ask for an absolute path without a hash sign.
- Relocation.Lengths: strings whose length needs more than four bytes in a 32-bit file; `struct.pack` would raise.
- ElfTwice.RelocateTwice: asks for patched areas that lie inside the file, apart from each other and from the headers, and for library directories that fit; without that a write may run into other parts.
- File permissions, and the check of the file size at the end of the relocation script.
- Command handling, remote data, build statistics, conversion scripts, configuration files and images: plumbing, without properties beyond one body.
