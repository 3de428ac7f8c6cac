# A model of a Zygisk module that hides mounts from apps

The module is loaded into every Android app process.  Before an app on the denylist is
specialized, it gives the process a mount namespace of its own, asks a companion process with
root rights to unmount what root solutions have mounted there, and unmounts locally if that
fails.  It also brings its own `__cxa_atexit` registry, because the library is unloaded again.

The project models the parts of the module in which state and order matter, and proves what they
guarantee, for every input, every run and every interleaving.  `dafny verify dfyconfig.toml`
checks all of it.

| file | models |
|---|---|
| `Registry.dfy` | `atexit.cpp`: the growable array with tombstones and restarts, proved to be a stack |
| `RegistryInterleavings.dfy` | the same functions as steps of concurrent activities under the lock |
| `RegistryTermination.dfy` | that every interleaving of them ends |
| `Streams.dfy` | the standard-library stream operations that the parsers use, and number printing |
| `MountOptions.dfy`, `Mountinfo.dfy` | `mountinfo_parser.cpp`: /proc/self/mountinfo |
| `Maps.dfy` | `map_parser.cpp`, and the search in `hookPLTByName` |
| `MountForest.dfy` | what a backward pass of unmount calls does to a tree of mounts |
| `Unmount.dfy` | `shouldUnmount`, the root resolver and `doUnmount`, from the text of the table to the final namespace |
| `Remount.dfy` | `doRemount` |
| `Properties.dfy` | `safeStringCopy`, `shouldResetProperty`, `doMrProp` |
| `Specialize.dfy` | the hooks on `unshare` and `setresuid` and the callback that they run once |
| `Companion.dfy` | the callback, the companion's handler and its forked child as three concurrent processes |

What the environment decides is an argument or a nondeterministic step: the contents of files, the
outcome of every system call, the numbering of devices (`makedev`), the callbacks that are
registered, and the superblock that `getExtErrorsBehavior` reads.  The layout of mountinfo lines
is that of section 3.5 of the Linux kernel's `Documentation/filesystems/proc.rst`; the registry
belongs to section 3.3 of the Itanium C++ ABI.

## What turned out not to hold

Some properties that one would expect of the code hold only under a condition.  The code is
modelled as it is, and the condition is part of the result.

* `doUnmount` calls `umount2` by path, so that a target with another mount on top at the same path
  is not the mount that is detached (`Unmount.CoveredTargetIsLeft`).  Where mounts at the same path
  are stacked on one another, the final namespace is right exactly if only targets are stacked on
  the outermost targets, however the targets lie (`Unmount.PassIsRightIff`).  In any table, every
  call detaches the mount it was made for exactly if no target is covered
  (`MountForest.CallsHitTheirOwnIffUncovered`).
* The companion's answer says that its child exited, not that the child did its work: the child
  also exits when it cannot enter the namespace (`Companion.SuccessWithoutWork`).  Success stands
  for completed work exactly if it could enter (`Companion.SuccessIsWorkIffSwitched`).
* If the namespace cannot be made, the callback returns without closing the socket
  (`main.cpp:119-120`), and the companion's handler is left waiting for a process id
  (`Companion.WhereRunsStop`, `Companion.HandlerMayBeLeft`).
* The flag word of `doRemount` has no bit for read-only, so that the mount options of /data survive
  the call exactly if it is mounted for writing (`Remount.OptionsKeptIff`).
* A copy by `safeStringCopy` leaves what stood behind the terminator
  (`Properties.CopyAloneKeepsTail`).  A reset value passes the scan of `shouldResetProperty` on the
  assumption, named under "Left out", that the property library pads what it stores
  (`Properties.PassCleansTail`).

## Model

| member | source | states |
|---|---|---|
| AtexitRegistry.Registry.constructor | module/jni/atexit.cpp:38-40 | an empty registry, in which the growth law holds |
| AtexitRegistry.Registry.Register | module/jni/atexit.cpp:56-76 | a null function is refused with -1 and changes nothing; any other is appended, earlier entries keep their index and value, and capacity and moved elements follow the growth law |
| AtexitRegistry.Registry.Reallocate | module/jni/atexit.cpp:65-68 | growing keeps every entry at its index |
| AtexitRegistry.Registry.Run | module/jni/atexit.cpp:97 | a callback is called with its argument and its own registrations are appended while the scan is in progress |
| AtexitRegistry.Registry.CallEntry | module/jni/atexit.cpp:91-98 | clearing a slot before calling it keeps the overall outcome and uses up one pending call, whatever the callback registers |
| AtexitRegistry.Registry.Finalize | module/jni/atexit.cpp:80-109 | terminates for every finite forest of callbacks, makes exactly the calls of the stack machine on the live entries, leaves only tombstones, and releases the array if and only if there was an entry |
| AtexitRegistry.PopShrinks | module/jni/atexit.cpp:82-104 | the measure of termination: a call takes its own node out of the forest of pending callbacks |
| AtexitRegistry.ScanStep | module/jni/atexit.cpp:85-102 | clearing and calling the highest live slot of an array with tombstones is one step of the stack machine |
| AtexitRegistry.LiveIgnoresTombstones | module/jni/atexit.cpp:86-89 | tombstones above the scan position do not change the pending stack |
| AtexitRegistry.LifoIsReversePreorder | module/jni/atexit.cpp:80-109 | the stack machine performs the reversed pre-order walk of the forest of callbacks, an order defined without any stack |
| AtexitRegistry.LifoAppend | module/jni/atexit.cpp:100-102 | newer registrations finish, with all that they register, before any older pending one starts |
| AtexitRegistry.EachCalledExactlyOnce | module/jni/atexit.cpp:91-94 | each callback with its argument is called exactly as often as the forest contains it |
| AtexitRegistry.GrowthBounds | module/jni/atexit.cpp:61-68 | capacity is the least 8·2^k with room, at most max(8, 2(n-1)), and growth has moved capacity-8 elements in all, fewer than 2n |
| AtexitInterleavings.StepKeepsInv | module/jni/atexit.cpp:56-109 | every step of every activity keeps mutual exclusion, the sizes, the slot contents, the call histories and what a scanning finalizer relies on |
| AtexitInterleavings.RunKeepsInv | module/jni/atexit.cpp:56-109 | that invariant holds in every state of every run, with any number of registering and finalizing activities |
| AtexitInterleavings.EveryEntryAccountedFor | module/jni/atexit.cpp:56-109 | at each point of each run an entry is live, in flight or finished, exactly one of them; its call begins once, and only one activity is inside it, with the entry's own function and argument |
| AtexitInterleavings.CallsNewestFirst | module/jni/atexit.cpp:85-94 | a call that begins is for the newest entry that is still live |
| AtexitInterleavings.ReleaseMeansDrained | module/jni/atexit.cpp:106 | when the array is released, no entry is live and each has been called once |
| AtexitInterleavings.EndedFinalizerHasDrained | module/jni/atexit.cpp:80-109 | a finalizer finalizes: if an entry was stored when it started, then once it has ended the array has been released and every entry stored by then has been called once |
| AtexitInterleavings.RestartMeansGrowth | module/jni/atexit.cpp:100-103 | a finalizer restarts its scan if and only if entries have been added since it noted the count, and otherwise goes on just below the slot of the call |
| AtexitInterleavings.SingleFinalizerCompletes | module/jni/atexit.cpp:96-106 | with one finalizer, all those calls have also returned by then |
| AtexitTermination.StepLowersPotential | module/jni/atexit.cpp:82-104 | every step of every activity, a restart of the scan included, lowers a measure made of the positions of the activities and the entries not yet called |
| AtexitTermination.RunsAreBounded | module/jni/atexit.cpp:56-109 | a run in which r registrations and f finalizations begin has at most r(r+10) + (r+4)f steps, however they are interleaved |
| AtexitTermination.SomeoneCanStep | module/jni/atexit.cpp:56-109 | until the release, some activity can go on as long as one has not ended |
| AtexitInterleavings.HolderCanStep | module/jni/atexit.cpp:56-109 | until the release every access is in bounds and the activity that holds the lock can take its next step |
| Streams.BadLineDropped | module/jni/mountinfo_parser.cpp:74-113 | for any line parser, a refused line is dropped from a text and the lines around it parse as they would alone |
| Streams.TextsAreIndependent | module/jni/mountinfo_parser.cpp:74-113 | the line loop distributes over the concatenation of texts |
| Streams.NatOfDigits | module/jni/map_parser.cpp:51 | digit strings in base 10 and 16 have the value that was printed |
| Streams.ReadIntPrinted | module/jni/mountinfo_parser.cpp:83 | a printed signed number, with leading zeros, is read back and nothing after it is consumed |
| Streams.ReadUnsignedPrinted | module/jni/map_parser.cpp:51 | the same for unsigned numbers of any width |
| MountOptions.ParseMountOptions | module/jni/mountinfo_parser.cpp:14-31 | the loop computes the left fold of map updates over the comma-separated tokens |
| MountOptions.ParseToken | module/jni/mountinfo_parser.cpp:21-28 | a token is split at its first `=`; an empty token changes nothing |
| MountOptions.PrintedOptionsParse | module/jni/mountinfo_parser.cpp:14-31 | of any printed list of options, each key gets the value of its last occurrence and no other key appears; `k` and `k=` are the same |
| MountOptions.OptionsRoundTrip | module/jni/mountinfo_parser.cpp:14-31 | printing a map in any order and in either style and parsing it gives the map back |
| Mountinfo.ParseHead | module/jni/mountinfo_parser.cpp:78-88 | the first stage reads six fields or fails |
| Mountinfo.ParseOptional | module/jni/mountinfo_parser.cpp:90-100 | the second stage collects any number of optional fields, each behind a space, up to a lone hyphen, or fails |
| Mountinfo.ParseLast | module/jni/mountinfo_parser.cpp:102-107 | the third stage reads three fields or fails |
| Mountinfo.ParseLine | module/jni/mountinfo_parser.cpp:76-112 | one turn of the line loop gives the entry of the line, or none if any stage fails |
| Mountinfo.MountinfoParser.ParseSelfMountinfo | module/jni/mountinfo_parser.cpp:58-116 | the loop is the order-preserving filter-map of the line parser; a non-empty cache is returned as it is when allowed, and a file that cannot be opened leaves an empty one |
| Mountinfo.MalformedLineDropped | module/jni/mountinfo_parser.cpp:84-107 | a line that fails in any of the three stages is dropped without affecting any other |
| Mountinfo.PrintedLineParses | module/jni/mountinfo_parser.cpp:76-112 | printing any entry with legal fields and any number of optional ones and parsing the line gives the fields back |
| Mountinfo.PrintedEntryRoundTrip | module/jni/mountinfo_parser.cpp:33-45 | printing any entry, its options in any order and either style, and parsing the line gives the same entry, option maps included |
| Mountinfo.SpacedIsText | module/jni/mountinfo_parser.cpp:90-94 | the optional fields are kept as the text of the line from the space in front of the first of them to the hyphen |
| Mountinfo.ParsedLineIsPrintable | module/jni/mountinfo_parser.cpp:76-112 | conversely, what the parser takes from any line is legal and survives printing and parsing |
| Mountinfo.PrintedTableParses | module/jni/mountinfo_parser.cpp:74-115 | the text of a whole table parses to that table |
| Maps.ParseLine | module/jni/map_parser.cpp:42-62 | one turn of the line loop gives the entry of the line, or none; a missing path is not a failure |
| Maps.MapsParser.ParseSelfMaps | module/jni/map_parser.cpp:24-66 | the loop is the order-preserving filter-map of the line parser, with the same treatment of the cache and of a missing file |
| Maps.MalformedLineDropped | module/jni/map_parser.cpp:53-57 | a line whose numbers or permissions cannot be read is dropped without affecting any other |
| Maps.PrintedLineParses | module/jni/map_parser.cpp:42-62 | printing any entry in any column layout and parsing it gives it back, with hexadecimal and decimal numbers, with no path and with spaces inside the path |
| Maps.PrintedEntryRoundTrip | module/jni/map_parser.cpp:42-62 | printing any entry and parsing the line gives the same entry, with its device made from the major and the minor number in that order |
| Maps.ParsedLineIsPrintable | module/jni/map_parser.cpp:42-62 | conversely, what the parser takes from any line is legal and survives printing and parsing |
| Maps.FindLibrary | module/jni/utils.cpp:34-45 | the search gives the device and inode of the first mapping of the library, and nothing if and only if it is not mapped |
| Maps.EndsWithMeaning | module/jni/utils.cpp:38 | a path ends with a suffix if and only if it is some text followed by the suffix |
| MountForest.UnderIsReachability | module/jni/modules.cpp:76-86 | lying below a mount is the existence of a chain of parent links |
| MountForest.DescendantsFirst | module/jni/modules.cpp:76-86 | in the order of calls (which Unmount.CallsInOrder identifies), no target comes before a target that lies below it, at any depth |
| MountForest.CallsHitTheirOwnIffUncovered | module/jni/modules.cpp:76-86 | every call detaches the mount it was made for if and only if all that is listed after a target at the same path is, or lies below, a later target |
| MountForest.PassLeavesSurvivors | module/jni/modules.cpp:76-86 | under that condition the pass leaves exactly the mounts that neither are targets nor lie below one |
| MountForest.TargetsOnTopAreUncovered | module/jni/modules.cpp:76-86 | the condition holds if only targets are listed after a target at the same path |
| MountForest.CoveredTargetStays | module/jni/modules.cpp:80-82 | a table in which the condition fails, another mount is detached, and the target stays |
| MountForest.PassIsRightIffStacksAreTargets | module/jni/modules.cpp:76-86 | where each mount at a path is mounted on the one before it there, the final state is right if and only if everything stacked on an outermost target is a target, with targets below one another or not |
| MountForest.StackTakenDown | module/jni/modules.cpp:76-86 | a stack of targets is taken down one mount at a time from its top |
| MountForest.StackOutlastsCalls | module/jni/modules.cpp:76-86 | a mount in a stack that is no target makes every later call there miss |
| MountForest.OnlyDoomedDetached | module/jni/modules.cpp:76-86 | in such a table nothing but targets and what lies below them is ever detached |
| MountForest.PassIsRightIffUncovered | module/jni/modules.cpp:76-86 | the case of tables that are not stacked: for targets that do not lie below one another, the final state is right if and only if no target is covered |
| MountForest.MissInsideATarget | module/jni/modules.cpp:76-86 | a table with a target below another in which a call misses and the final state is right all the same |
| Unmount.RootResolver.constructor | module/jni/mountinfo_parser.cpp:118-127 | the index answers for every device as the backward search for its last entry with root `/` |
| Unmount.RootResolver.ResolveRootOf | module/jni/mountinfo_parser.cpp:129-142 | with an index of any list of mounts, the result is the mount point of the last entry that shows the root of the device followed by the root of the mount, and the latter alone if there is no such entry or it is mounted at `/` |
| Unmount.ShouldUnmount | module/jni/modules.cpp:36-69 | the early-return loop decides, in whatever order the directories come: the resolved root, the mount point or a layer of an overlay begins with one of the two directories, or an overlay or tmpfs has one of the four source names |
| Unmount.NonRootEntriesIrrelevant | module/jni/modules.cpp:36-69 | inserting or removing an entry whose root is not `/` never changes the verdict on another entry |
| Unmount.CallsAreReversedFilter | module/jni/modules.cpp:76-86 | the paths passed to umount2 are exactly the mount points of the targets, in reverse order of the table |
| Unmount.CallsInOrder | module/jni/modules.cpp:76-86 | the calls are made for the targets, each once, from the last listed to the first |
| Unmount.DescendantsCalledFirst | module/jni/modules.cpp:76-86 | each path passed to umount2 is that of a target, and a target that lies below another, at any depth, has its call first |
| Unmount.MountNamespace.Umount2 | module/jni/modules.cpp:81 | a call detaches the mount on top at the path with all below it, or fails and changes nothing |
| Unmount.ReadMounts | module/jni/modules.cpp:73 | parsing the text that the kernel prints gives the entries of the attached mounts |
| Unmount.DoUnmount | module/jni/modules.cpp:71-87 | from the text of the table to the final namespace: the loop makes these calls and goes on after a failed one; if the whole table can be read and no call is refused, then with only targets listed after a target at the same path a mount stays exactly if neither it nor an ancestor is a target, and in a stacked table that is so if and only if only targets are stacked on the outermost targets |
| Unmount.PassIsRun | module/jni/modules.cpp:71-87 | over an entire table the calls by path are the pass over the tree of its mounts |
| Unmount.PassLeavesTheRest | module/jni/modules.cpp:71-87 | over the entries of an entire table: if only targets are listed after a target at the same path, a mount stays if and only if neither it nor any of its ancestors is a target |
| Unmount.PassIsRightIff | module/jni/modules.cpp:71-87 | in a stacked table that outcome is reached if and only if only targets are stacked on the outermost targets |
| Unmount.UnstackedPassIsRightIff | module/jni/modules.cpp:71-87 | in any other table, for targets that do not lie below one another, it is reached if and only if no target is covered |
| Unmount.CoveredTargetIsLeft | module/jni/modules.cpp:36-87 | two legal lines, a tmpfs of a root solution and a file system mounted over it: the second is unmounted and the target stays |
| Remount.BuildFlags | module/jni/modules.cpp:104-109 | the loop gives the same word in whatever order the rows of the unordered table come |
| Remount.WordOfAnyOrder | module/jni/modules.cpp:27-34 | a row's bit is set if and only if its option is present, MS_REMOUNT always, no other bit ever |
| Remount.CarriesOnlyOne | module/jni/modules.cpp:104-109 | these properties determine the word |
| Remount.DoRemount | module/jni/modules.cpp:89-119 | the loop makes at most one call: for /data, if its first entry differs from its superblock, with a flag for each mount option of that entry and no super option |
| Remount.CallIffDiffers | module/jni/modules.cpp:91-101 | a call is made if and only if the first entry of /data names an error behaviour, the superblock's can be read, and they differ |
| Remount.CallCarriesOptions | module/jni/modules.cpp:103-111 | the target, the flags bit by bit from the mount options of the first entry of /data, and the text of the superblock's behaviour |
| Remount.FirstEntryDecides | module/jni/modules.cpp:91-117 | only the first entry of /data decides, whatever follows it |
| Remount.OptionsKeptIff | module/jni/modules.cpp:103-111 | the mount options survive the call if and only if /data is mounted for writing |
| Remount.RemountSettles | module/jni/modules.cpp:95-101 | after a successful call a second pass makes none |
| Properties.Strncat | module/jni/utils.cpp:28 | appends the source's string, cut to the count, and a terminator, within the buffer, and changes nothing else |
| Properties.SafeStringCopy | module/jni/utils.cpp:20-32 | the whole new buffer: the source's string cut to size-1, a terminator, the old rest; the result is the length; size 0 changes nothing |
| Properties.CopyHoldsString | module/jni/utils.cpp:20-32 | whatever the source buffer holds, terminated or not, the copy is a terminated string within its size: the source's string if that fits, else its longest beginning that does |
| Properties.ShouldResetProperty | module/jni/modules.cpp:170-190 | true exactly for a read-only, short property that is marked as modified or has a character behind the end of its value |
| Properties.ZeroTailMeaning | module/jni/modules.cpp:181-187 | the tail scan finds nothing if and only if no character follows a NUL anywhere |
| Properties.ResetIffTouched | module/jni/modules.cpp:170-190 | which properties are reset, character by character and bit by bit |
| Properties.ResetsAreCounted | module/jni/modules.cpp:215 | the counter grows by the number of properties that are reset |
| Properties.ResetIfNeeded | module/jni/modules.cpp:208-217 | a property is rewritten from a copy if it needs it, and otherwise left alone |
| Properties.PropertyPass.DoMrProp | module/jni/modules.cpp:192-222 | each property ends as its own reset says, the counter grows by the number of resets, and nothing happens if the library cannot be initialized, which is not tried again once it has succeeded |
| Properties.PassCleansTail | module/jni/modules.cpp:181-187 | copying and padding leaves a value that the scan accepts, and the same string unless that filled the field |
| Properties.ResetAgainIff | module/jni/modules.cpp:170-217 | a second pass resets a property again if and only if its new serial counts as modified |
| Properties.CopyAloneKeepsTail | module/jni/utils.cpp:20-32 | writing the terminated copy over the value without padding changes nothing |
| Specialize.AppProcess.constructor | module/jni/main.cpp:18 | no callback, nothing hooked |
| Specialize.AppProcess.PreAppSpecialize | module/jni/main.cpp:91-144 | the callback is set, with the companion's socket, exactly for a user app on the denylist without root for which both hooks are reported in place |
| Specialize.AppProcess.NewMountNs | module/jni/main.cpp:67-80 | one unshare with CLONE_NEWNS, and only after its success the change of propagation |
| Specialize.AppProcess.InvokeCallback | module/jni/main.cpp:113-143 | the callback replaces itself, and its effects are the specified ones on every path |
| Specialize.AppProcess.AskCompanion | module/jni/main.cpp:122-142 | the conversation with the companion and the choice between its success and unmounting locally |
| Specialize.AppProcess.NewUnshare | module/jni/main.cpp:34-46 | the hook runs the callback first, masks CLONE_NEWNS, and makes no call if nothing is left |
| Specialize.AppProcess.NewSetresuid | module/jni/main.cpp:55-59 | the hook runs the callback first and passes the call on |
| Specialize.AppProcess.PostAppSpecialize | module/jni/main.cpp:151-157 | each function is unhooked only if its original has been saved |
| Specialize.ArmedIff | module/jni/main.cpp:99-113 | the same for every state and every preparation, as an if-and-only-if |
| Specialize.HookedByPreparation | module/jni/main.cpp:99-107 | a root process, one off the denylist and one that is no user app are left entirely alone; otherwise the second hook is attempted only after the first is reported in place, and what has been hooked stays |
| Specialize.NothingStaysHooked | module/jni/main.cpp:151-157 | in every run, a function stays hooked after specialization only if it could not be unhooked, and calls then reach libc as they are |
| Specialize.CallbackSpelledOut | module/jni/main.cpp:113-143 | the events of the callback for each combination of failures |
| Specialize.DescriptorsReopened | module/jni/fd_reopener.cpp:7-33 | descriptors are noted before the namespace is made, and each is reopened afterwards, once and in order, whether or not anything failed |
| Specialize.ReopenedIffRegular | module/jni/fd_reopener.cpp:13-21 | a descriptor is reopened if and only if it was listed, could be examined, and is neither a socket nor a memfd |
| Specialize.OneOutcome | module/jni/main.cpp:119-142 | exactly one of success and local unmounting if the namespace has been made, and neither otherwise |
| Specialize.ActionKeepsBooks | module/jni/main.cpp:34-157 | every action keeps the counts of starts, completions, namespaces and reopenings in balance and the hooks in order |
| Specialize.CallbackRunsAtMostOnce | module/jni/main.cpp:113-117 | in every run the callback starts at most once for each preparation, always completes, makes one namespace each time, and reopens each descriptor as often as it was noted |
| Specialize.CallbackBeforeHookedCalls | module/jni/main.cpp:34-59 | once the callback has been set, no hooked call reaches the original before the callback has completed |
| Specialize.HookNeverPassesNewns | module/jni/main.cpp:37-45 | no hook ever passes CLONE_NEWNS on |
| Specialize.AddedWhileHooked | module/jni/main.cpp:34-80 | while unshare is hooked, an action that asks libc for a new mount namespace does so by the callback's own call |
| Specialize.NamespacesWhileHooked | module/jni/main.cpp:34-80 | over any stretch of a run in which unshare is hooked, libc is asked for a new mount namespace at most once for each preparation, whatever the runtime asks for |
| Specialize.NextCallRunsCallback | module/jni/main.cpp:34-59 | a callback that has been set is not bypassed: until specialization is over, the next call of either function runs it before it is passed on |
| Specialize.OtherFlagsPassedOn | module/jni/main.cpp:37-45 | the call of unshare is skipped if and only if it asks for nothing but a new mount namespace, and otherwise keeps all its other flags |
| Companion.StepKeepsInv | module/jni/main.cpp:113-188 | every step of the three processes keeps the invariant that links the callback's variables, its trace, the messages, and the child's progress |
| Companion.RunKeepsInv | module/jni/main.cpp:113-188 | the invariant holds after every interleaving |
| Companion.SuccessMeansExit | module/jni/main.cpp:176-185 | the app sees success only after the child has ended by exiting: with 0 after all its work in order, or with 1 after none of it |
| Companion.SuccessWithoutWork | module/jni/main.cpp:176-185 | for every app with a companion there is a run in which the child exits with 1 after no work and the app takes that for success |
| Companion.SuccessIsWorkIffSwitched | module/jni/main.cpp:176-185 | given success, all the work has been done if and only if the child got into the namespace, and none of it if and only if it did not |
| Companion.SuccessNeedsEveryCall | module/jni/main.cpp:119-187 | the app sees success only if no call on the way has failed: the namespace, any write or read on either side, the fork, the wait |
| Companion.ExactlyOneOutcome | module/jni/main.cpp:119-142 | at every point of every run, whichever call fails: exactly one of success and local unmounting once the namespace exists and the conversation is over, neither before or without it |
| Companion.CallbackRefinesBody | module/jni/main.cpp:113-143 | seen from the app, the callback does exactly what the sequential model does with the same outcomes |
| Companion.RankDecreases | module/jni/main.cpp:113-188 | every step uses up some of the finite work that is left |
| Companion.RunsAreBounded | module/jni/main.cpp:113-188 | no run has more than 19 steps plus one for each descriptor to be reopened |
| Companion.WhereRunsStop | module/jni/main.cpp:113-188 | a run without a possible step has both sides returned, or has left the handler reading from a socket that the callback never closed; the latter happens only if the namespace could not be made, and then nothing has been forked |
| Companion.HandlerMayBeLeft | module/jni/main.cpp:119-120 | a run that ends there exists for every callback that has a companion, whatever descriptors are open |
| Companion.WithoutFailures | module/jni/utils.cpp:71-84 | if no call fails, success is seen if and only if there is a companion, and then all the work has been done |

## Left out

- Uses of the registry outside its single-use discipline: a registration or a second finalization
  after the array has been released, at `atexit.cpp:106`, is not a step of the model.  In the class a
  callback does not finalize; among the interleavings several finalizers may overlap up to the
  release, and memory validity after it is not claimed.
- Failing allocation and overflow of `size_t` in the registry.
- Number extraction follows the C++ standard's `num_get`; stream implementations that deviate from it, and locales, are not part of this model.
- Octal escapes in mountinfo, which the parser keeps as they are, and matching by path components: `starts_with` is a plain prefix.
- Unmount.PassIsRightIff: stated for tables in which each mount at a path is mounted on the one listed before it there, as the kernel makes them unless a parent directory has been mounted over in between; for other tables the exact condition is that of Unmount.UnstackedPassIsRightIff, and for nested targets in them that of Unmount.PassLeavesTheRest is sufficient only.  All are stated for a kernel that refuses no call; Unmount.DoUnmount allows refusals.
- MountForest.Top: a call finds the last mount listed at an equal path.  That a mount placed over a parent directory hides a path from `umount2` is not modelled.
- Unmount.MountNamespace.Umount2: mounts made or unmounted by other processes during the pass, and propagation, are not modelled.
- Remount.OptionsKeptIff: what the kernel does with the flag word is taken to be the replacement of the listed options and of `ro` and `rw`; the handling of access-time modes that no option names is not modelled.
- Properties.Property.Update: the property library is not part of this model; an update is taken to store the text followed by NULs, and the serial it leaves is arbitrary.  `is_long()` is a field.
- `doHideZygisk`, which patches raw memory with the help of an ELF reader; it appears as one event.
- `getExtErrorsBehavior` (its result is an argument), `isUserAppUID`, the getters, the opening of files, logging.
- Registration with and commitment of hooks by Zygisk, `setns`, and the inside of `fork`: they appear as outcomes.
- `fd_utils`: noting and reopening descriptors are abstract events, and a failed reopening is not distinguished.
- Companion.WhereRunsStop: that a closed socket ends a read, and that the child ends, are assumptions about the environment, expressed by the steps that count as prompt.
