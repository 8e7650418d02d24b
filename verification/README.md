# Verified models of cinit, runit and s6

This project models the logging, supervision and start-up machinery of three init
suites, and proves what it is for: that no log line is lost, that no restart or state
change is missed, that services start in order, and that tables and buffers keep track
of what they own.

System calls are oracles: each may fail or stop half-way wherever the modelled program
calls it, writes and reads may be short, processes die at any time, and the clock and
the network of services are parameters. What the kernel knows (directory contents,
live children, open descriptors, byte streams) is state of the model, so that contracts
can speak about it.
What a program achieves with calls that do not fail is stated for environments that
say so with a constant: `reliable`, `writable`, `roomy`, or the `kernel` of s6-log; a
clock that does not go back is `forward`.

| file | what it models |
|---|---|
| LogStore, Trimming, Splitting, S6Log, IgnoredFaults | s6-log: the directory as names and inodes, the rotation machine, recovery, trimming and splitting, for crashes between any two steps |
| TaiTime, Labels, Svlogd | svlogd: time stamps and their labels, the output buffer that calls back into the rotation, the directories and the read loop |
| DepRing, CinitTree, CinitStarter | cinit: circular lists on the heap, the recursive discovery of the service graph, the starter |
| Supervise, Svwait | s6-supervise's table of actions; s6-svwait and its client library; the protocol between the two |
| Svscan | s6-svscan's table of services |
| PathexecEnv | runit's in-place merge of environment settings |
| BufferGet | runit's input buffer |
| SwapScan | the scan loops of s6-ftrigrd and s6lockd |
| Pmatch | runit's pattern matcher and svlogd's choice of lines |
| Decimal | runit's decimal numbers |

`dafny verify dfyconfig.toml` checks all of it. State that the programs update in place
is a class, an array or a heap structure here, and the methods are proved against
predicates and functions on values; what a single method's contract cannot say is in
lemmas about these.

## What the proofs brought up

The models follow the code. Where it does not keep what its comments or documentation
promise, a lemma gives the exact condition.

- s6-log: `finish` returns 0 when stat, link or unlink fail, and its callers only test
  for negative values. A generation is then overwritten by the next rotation
  (`ArchivedIffLinked`), archived raw and processed (`ProcessedOnceIffUnlinked`), or its
  archive truncated by the next processor (`ProcessedKeptIffUnlinked`). `S6Log.Run` keeps
  a flag `faultless`, which falls only when the kernel refuses one of these three calls in
  `finish` or recovery's unlink of "previous", or when the trimmer reads past its entries:
  it stands with a kernel that obliges and limits that leave room. Failures of rename,
  open, chmod, sync, fork and write, and kills anywhere, are included. That a link is
  refused because its name is taken is shown to be impossible for "previous" and
  "processed".
- s6-log: recovery formats the same cached clock reading for "previous" and "current",
  so the second link can fail although every call works, and the old "current" goes on
  with its byte count at zero. The last clause of `LogDir.Init` says when; `CurrentLeft`
  is a case of it.
- s6-log: the trimming loop reads past its entries if and only if what it cannot remove
  is over the size limit by itself, or the count limit and the number of removals that are
  needed add up to 2^32 (`GuardAlwaysIffOverruns`, `LogDir.RemoveOldest`). The largest
  limit and a size limit do (`LargestLimitOverruns`).
- cinit: the exit status is looked for in a field that nothing assigns, so every exit
  counts as a success (`NeverOnceFail`); process numbers are kept after an exit, so that a
  stale one may hide the service that has it now (`ExitNoticed`, `StaleHides`); the
  starter's loop never notices exits itself and so never ends if some service that comes
  onto the list needs a once-service, or one that is never started, and ends otherwise
  (`Starter.SvcTreeExec`, `BlockedMeans`); if every service depends on another one the
  list to start from is a null pointer (`PendingEmptyIffNoneFree`).
- s6-supervise: commands that are queued behind an exit are still carried out, so that
  "x" and "u" in one batch leave a running service behind; hence the last "u" in the
  language of events. `Supervisor.HandleControl` says for which batches that is so.
- s6-svwait: it only looks at the process number, so that a status written while a
  finish script runs reads as "up" (`NoMissedTransition`). With `-a` or `-o` a round
  after an event is always an error (`FailsAfterEvent`), unlike with the undocumented
  default `-A`.
- s6-svscan: an inactive entry whose processes had died before it became inactive is
  never reaped and keeps its slot and its pipe until its directory is found again
  (`Scanner.Run`, `NeverVanishes`); a restart that is due may wait for the next scan
  because the deadline is set anew in every turn (`Scanner.Turn`).
- pathexec_env: a name that occurs twice keeps one old entry, which readers find first
  (`MergedLookup`).
- pmatch: at the end of the text a plus accepts whatever the rest of the pattern is, and
  compares the byte that comes next in memory, the parameter `beyond` (`PlusMeans`,
  `PlusFails`); a plus at the end of a pattern takes a zero byte of the line for its
  character, and the matcher goes on behind the pattern (`LeavesIff`, `ZeroLeaves`).

## Model

| member | source | states |
|---|---|---|
| S6Log.Run | s6_and_deps/s6-1.1.1/src/daemontools-extras/s6-log.c:313-682 | over any sequence of processes, inputs, alarms, child exits, clean exits and kills, with a kill or a failure possible at every system call: as long as the flag stands, the generations in order of birth hold exactly the accepted bytes, every generation but the last held at least the file size of one of the processes, or ended in a newline within its tolerance of that size, or was cut off by an alarm while it was not empty or by a start that found it unfinished, one per such event, and whenever a process can write, every generation ever born is either the open file, or was trimmed, or has exactly one archive; the flag stands if the kernel never refuses stat, link and unlink and no count limit and three files per event can wrap a word; the accepted bytes are the beginnings of the inputs, in order; with a flawless kernel every process starts and, without a processor, accepts something of all it is given; what was trimmed was over the limits of one of the processes, unless that one was reading past its entries |
| S6Log.SettledExactlyOnce | s6_and_deps/s6-1.1.1/src/daemontools-extras/s6-log.c:368-571 | in every good directory between two rotations, a generation is in exactly one of three places, never archived twice and never lost |
| S6Log.LogDir.Rotator | s6_and_deps/s6-1.1.1/src/daemontools-extras/s6-log.c:368-571 | the fall-through switch keeps the crash invariant from whichever state it resumes, returns 1 exactly when it is writable again, never loses or changes logged bytes, and restarts the byte count exactly when it has opened a new file; if no call fails it ends the rotation or leaves it to a running processor |
| S6Log.LogDir.ArchivePrevious | s6_and_deps/s6-1.1.1/src/daemontools-extras/s6-log.c:444-454 | a full "previous" gets its archive name, made from the time stamp, and the rotation ends with the invariant kept |
| S6Log.LogDir.SealProcessed | s6_and_deps/s6-1.1.1/src/daemontools-extras/s6-log.c:474-505 | from the chmod on, recovery trusts "processed"; before it, "previous" |
| S6Log.LogDir.FinishProcessing | s6_and_deps/s6-1.1.1/src/daemontools-extras/s6-log.c:474-564 | the five states after the processor's success keep the invariant, resumed at any of them, and end the rotation if no call fails |
| S6Log.LogDir.ProcessorDied | s6_and_deps/s6-1.1.1/src/daemontools-extras/s6-log.c:951-971 | a crash or failure of the child goes back to running it; success goes on and, if no call fails, ends the rotation, with nothing lost either way |
| S6Log.LogDir.ProcessorOpens | s6_and_deps/s6-1.1.1/src/daemontools-extras/s6-log.c:338-366 | the child truncates "processed" while it is not trusted, which disturbs no archive |
| S6Log.LogDir.Finish | s6_and_deps/s6-1.1.1/src/daemontools-extras/s6-log.c:313-336 | whichever of its calls are refused, none of them by a flawless kernel and neither stat, link nor unlink by an obliging one, the directory is what these outcomes make of it, trimmed only if the old name is gone; if none is refused, the file has exactly one archive name and its old name is gone, however often a killed attempt preceded it |
| S6Log.LogDir.RecoverPrevious | s6_and_deps/s6-1.1.1/src/daemontools-extras/s6-log.c:639-664 | recovery leaves neither "previous" nor a trusted "processed", archives one of them under a name that is free, and touches neither "current" nor any content |
| S6Log.LogDir.RecoverCurrent | s6_and_deps/s6-1.1.1/src/daemontools-extras/s6-log.c:665-666 | if all calls work, an interrupted "current" stays if and only if it has no archive yet and the name made from the time stamp is taken |
| S6Log.LogDir.Init | s6_and_deps/s6-1.1.1/src/daemontools-extras/s6-log.c:609-682 | after start-up the invariant holds and the byte count is that of a cleanly closed "current" or zero; if all calls work, an interrupted "current" goes on being written if and only if an unarchived "previous" and no trusted "processed" were found and an archive of the size of that "previous" survives the trimmer |
| S6Log.CurrentTaken | s6_and_deps/s6-1.1.1/src/daemontools-extras/s6-log.c:660-666 | recovery makes one name for "previous" and "current": the second is refused if and only if the first was made and not trimmed at once |
| S6Log.LogDir.Finalize | s6_and_deps/s6-1.1.1/src/daemontools-extras/s6-log.c:1092-1122 | a clean exit leaves "current" marked as complete, so that the next process goes on with it |
| S6Log.LogDir.LogdirTrim | s6_and_deps/s6-1.1.1/src/daemontools-extras/s6-log.c:237-311 | removes names from the directory, all of them archives, and records each as trimmed; it stops after the removals that are needed, or overruns its entries when all of them are gone or stuck, exactly as the next rows say |
| S6Log.LogDir.RemoveOldest | s6_and_deps/s6-1.1.1/src/daemontools-extras/s6-log.c:297-310 | for every 32-bit limit, the loop reads past its entries if and only if what cannot be removed exceeds the size limit by itself or the limit and the number of removals that are needed add up to 2^32; otherwise it tries exactly these, and when every unlink works they are the least number of oldest archives |
| S6Log.NewestKept | s6_and_deps/s6-1.1.1/src/daemontools-extras/s6-log.c:297-310 | a trimmer whose calls all work keeps the newest archive if and only if the number of archives that are over the limits is less than all of them and adds up with the limit to less than 2^32 |
| S6Log.NewestFitsIff | s6_and_deps/s6-1.1.1/src/daemontools-extras/s6-log.c:297-310 | that is so if and only if the newest archive alone is within both limits and the trimmer does not read past its entries |
| Trimming.ExcessIsLeast | s6_and_deps/s6-1.1.1/src/daemontools-extras/s6-log.c:298-308 | what is kept is the longest newest suffix within the count limit and the optional size limit, and it is kept exactly then |
| Trimming.SortSorts | s6_and_deps/s6-1.1.1/src/daemontools-extras/s6-log.c:219-222 | what the comparison function sorts: the same entries, distinct and oldest first |
| Trimming.ProgressOverrun | s6_and_deps/s6-1.1.1/src/daemontools-extras/s6-log.c:298-308 | running out of entries means that what cannot be removed is over the size limit, or that the limit and the removals that are needed do not fit a word together |
| Trimming.ProgressEnd | s6_and_deps/s6-1.1.1/src/daemontools-extras/s6-log.c:298-308 | stopping means that neither is so, and that exactly the removals that are needed were tried |
| Trimming.GuardAlwaysIffOverruns | s6_and_deps/s6-1.1.1/src/daemontools-extras/s6-log.c:298-308 | the guard with its 32-bit sum holds at every number of removals if and only if the entries are overrun in this sense |
| Trimming.NeededIsLeast | s6_and_deps/s6-1.1.1/src/daemontools-extras/s6-log.c:298-308 | what is needed is the least number of removals after which the limits are met, apart from what is stuck |
| Trimming.NothingRefused | s6_and_deps/s6-1.1.1/src/daemontools-extras/s6-log.c:298-308 | if every unlink works, that number is the number of archives over the limits, and overrunning is its sum with the limit reaching 2^32 |
| Trimming.LargestLimitOverruns | s6_and_deps/s6-1.1.1/src/daemontools-extras/s6-log.c:298-308 | two archives and the largest limit for which one removal is enough and the loop never stops |
| S6Log.LogDir.LogdirWrite | s6_and_deps/s6-1.1.1/src/daemontools-extras/s6-log.c:573-607 | accepts a non-empty prefix or nothing; while the file has room it goes on being written, with the count advanced by what was accepted, and it is left for a new one exactly if what was written ends in a newline within the tolerance of the limit; a full file makes room for a new generation before anything is written; late newlines stay out of the file |
| S6Log.LogDir.WriteChunk | s6_and_deps/s6-1.1.1/src/daemontools-extras/s6-log.c:584-606 | a kernel that writes all it is given gets exactly the chunk; the file is rotated after it if and only if it ends in a late newline |
| S6Log.LogDir.HandleAlarm | s6_and_deps/s6-1.1.1/src/daemontools-extras/s6-log.c:1052-1063 | an alarm rotates a file that is writable and not empty, so that the next byte starts a new one, and touches nothing else otherwise |
| Splitting.Chunk | s6_and_deps/s6-1.1.1/src/daemontools-extras/s6-log.c:584-589 | at least one byte of a non-empty block and never beyond the limit, in 32-bit arithmetic; as much as there is room for, unless that comes within the tolerance of the limit and holds a newline: then it ends at the last one |
| Splitting.ChunkKeepsLines | s6_and_deps/s6-1.1.1/src/daemontools-extras/s6-log.c:584-605 | a full write ends the file on a newline within the tolerance or leaves no newline there |
| Splitting.FullFileSplitsLongLine | s6_and_deps/s6-1.1.1/src/daemontools-extras/s6-log.c:579-605 | a file closed by size without a final newline has no newline, or more than the tolerance after its last one |
| IgnoredFaults.ArchivedIffLinked | s6_and_deps/s6-1.1.1/src/daemontools-extras/s6-log.c:322-334 | the rotated generation survives the next rotation, or was trimmed as an archive, if and only if stat and link worked; callers do not notice otherwise |
| IgnoredFaults.ProcessedOnceIffUnlinked | s6_and_deps/s6-1.1.1/src/daemontools-extras/s6-log.c:651-657 | the recovery after the next makes an archive of the raw form as well if and only if the unlink of "previous", whose result is ignored, failed; then both are there unless the first was trimmed |
| IgnoredFaults.ProcessedKeptIffUnlinked | s6_and_deps/s6-1.1.1/src/daemontools-extras/s6-log.c:334 | the archived output outlives the next processor, or was trimmed, if and only if finish could unlink "processed" or there was no output |
| IgnoredFaults.CurrentLeft | s6_and_deps/s6-1.1.1/src/daemontools-extras/s6-log.c:660-666 | a directory in which recovery leaves "current" unarchived although every call works |
| LogStore.OtherLink | s6_and_deps/s6-1.1.1/src/daemontools-extras/s6-log.c:323 | a link count other than one means that another name exists, which is what makes archiving idempotent |
| LogStore.LinkArchives | s6_and_deps/s6-1.1.1/src/daemontools-extras/s6-log.c:332 | link gives a generation its one archive |
| LogStore.UnlinkArchived | s6_and_deps/s6-1.1.1/src/daemontools-extras/s6-log.c:334 | unlink of the old name of an archived file loses nothing |
| LogStore.UnlinkPrevious | s6_and_deps/s6-1.1.1/src/daemontools-extras/s6-log.c:527-538 | removing "previous" is safe once the processed form is trusted |
| LogStore.TrimArchive | s6_and_deps/s6-1.1.1/src/daemontools-extras/s6-log.c:301-306 | the trimmer loses exactly the generation of the archive it removes |
| Svlogd.Logger.Run | runit/runit-2.1.1/runit-2.1.1/src/svlogd.c:577-641 | any run of puts, single characters, flushes, reads and alarm, hangup and term signals over any number of directories, with short writes and rotations by size, age or signal: what was put into a directory is exactly what the events gave it while it was open, and rotated files in order, then the current file, then the buffer are exactly the bytes put; if some call is retried for ever, what reached the disk is the beginning of them; directories open and close only when a hangup is obeyed, and a run only breaks off when a call is retried for ever or no directory is open |
| Svlogd.Logger.Serve | runit/runit-2.1.1/runit-2.1.1/src/svlogd.c:564-575 | the same from the start, where at least one directory opens or svlogd ends |
| Svlogd.Logger.Step | runit/runit-2.1.1/runit-2.1.1/src/svlogd.c:577-641 | each event adds exactly its own bytes to the directory that it names, if that is open; an alarm is remembered until a read has obeyed it by rotating every open directory, and so is a hangup until every directory has been opened anew |
| Svlogd.Logger.BufferPread | runit/runit-2.1.1/runit-2.1.1/src/svlogd.c:577-617 | all buffers are empty before anything is rotated or reopened; after an alarm every open directory has been rotated, and otherwise every one whose time has come, if the clock does not go back; a directory without an age limit is only rotated where it is full; asked to exit, it reads nothing at a complete line and single bytes otherwise, and else what is offered |
| Svlogd.Logger.RotateAll | runit/runit-2.1.1/runit-2.1.1/src/svlogd.c:581-600 | exactly the directories that are selected, by an alarm or by their age at the time of the last rotation, get their whole current file rotated away and an empty one; the others are as they were |
| Svlogd.Logger.ReopenAll | runit/runit-2.1.1/runit-2.1.1/src/svlogd.c:564-575 | every directory is closed and opened anew, and a file that was being written goes on; without system calls that fail, svlogd ends only for want of a free name |
| Svlogd.LogDir.Rotate | runit/runit-2.1.1/runit-2.1.1/src/svlogd.c:253-308 | entered only with an empty buffer; moves the whole current file to the end of the rotated ones, under the name made from the time, or changes nothing; the next time to rotate is set when the last one has passed; the number of old files stays within the larger of what it was and nmax, apart from removals that fail |
| Svlogd.LogDir.BufferFlush | runit/runit-2.1.1/runit-2.1.1/src/buffer_put.c:25-33 | re-entered through the callback it does nothing; what was buffered reaches the disk once, in order |
| Svlogd.LogDir.AllWrite | runit/runit-2.1.1/runit-2.1.1/src/buffer_put.c:8-23 | all bytes reach the disk once and in order, whatever the callback does in between |
| Svlogd.LogDir.BufferPwrite | runit/runit-2.1.1/runit-2.1.1/src/svlogd.c:310-364 | writes at least one byte, never past sizemax in a file filled from empty; the file is rotated before exactly if it is at its limit, and after exactly if a line has ended within linemax of it |
| Svlogd.LogDir.BufferPut | runit/runit-2.1.1/runit-2.1.1/src/buffer_put.c:49-69 | the bytes are appended to what was put, in order, whether they fit the buffer or are written through; if they fit, nothing reaches the disk |
| Svlogd.LogDir.BufferPutalign | runit/runit-2.1.1/runit-2.1.1/src/buffer_put.c:35-47 | the same when the buffer is filled up first |
| Svlogd.LogDir.BufferPutc | runit/runit-2.1.1/runit-2.1.1/src/buffer.h:28-32 | the same for the macro |
| Svlogd.LogDir.RmOldest | runit/runit-2.1.1/runit-2.1.1/src/svlogd.c:221-251 | removes leftovers and, if there are more than nmax, one name that no other precedes, all of them unless unlink fails |
| Svlogd.OldestIsEarliest | runit/runit-2.1.1/runit-2.1.1/src/svlogd.c:239-248 | a name that no other precedes has the earliest stamp |
| Svlogd.LogDir.Open | runit/runit-2.1.1/runit-2.1.1/src/svlogd.c:403-562 | a current file left by a crash is rotated away whole, a complete one is continued, and is marked as unfinished |
| Svlogd.LogDir.Close | runit/runit-2.1.1/runit-2.1.1/src/svlogd.c:366-383 | closing keeps every byte and marks the file complete |
| Labels.LabelOrder | runit/runit-2.1.1/runit-2.1.1/src/fmt_ptime.c:30-42 | the comparison of two labels has the sign of the comparison of their seconds and nanoseconds |
| Labels.EarlierIsSmaller | runit/runit-2.1.1/runit-2.1.1/src/str_diff.c:5-17 | an earlier stamp has the smaller name, even with different last characters |
| Labels.FmtTaia | runit/runit-2.1.1/runit-2.1.1/src/fmt_ptime.c:30-42 | the label is an at sign and the 24 hexadecimal digits of seconds and nanoseconds as one number |
| Labels.TaiaPack | runit/runit-2.1.1/runit-2.1.1/src/taia_pack.c:5-22 | the packed form is big-endian: eight bytes of seconds, four of nanoseconds, four of attoseconds |
| Labels.TaiPack | runit/runit-2.1.1/runit-2.1.1/src/tai_pack.c:5-18 | the eight bytes of the seconds, most significant first, and nothing else |
| Labels.StrDiff | runit/runit-2.1.1/runit-2.1.1/src/str_diff.c:5-17 | the difference at the first place where the strings differ or end, never reading past a terminator |
| TaiTime.TaiaAdd | runit/runit-2.1.1/runit-2.1.1/src/taia_add.c:7-20 | for every aliasing of the three operands and both word sizes, the sum modulo 2^64 times 10^18 attoseconds, normalised |
| TaiTime.TaiaSub | runit/runit-2.1.1/runit-2.1.1/src/taia_sub.c:7-23 | for every aliasing and both word sizes, the difference modulo the same, normalised |
| TaiTime.PlusMinus | runit/runit-2.1.1/runit-2.1.1/src/taia_sub.c:7-23 | adding and subtracting undo each other |
| TaiTime.LessIsEarlier | runit/runit-2.1.1/runit-2.1.1/src/taia_less.c:7-14 | taia_less is the strict total order of what the stamps denote |
| CinitTree.Services.BuildTree | cinit/src/svc/gen_svc_tree.c:30-59 | for any finite configuration, cyclic or not, building ends; unless allocation, getcwd or chdir fails, it succeeds if and only if no service that can be reached is unreadable; if it succeeds, the services are exactly those that can be reached, each once, with every list as configured |
| CinitTree.Services.GenSvcTree | cinit/src/svc/gen_svc_tree.c:30-59 | finds the service or builds it, and fails only if a call is refused or a service that can be reached from it is unreadable; new services can be reached from it, old ones keep their dependencies, status and place in the list |
| CinitTree.Services.CheckAddDeps | cinit/src/svc/check_add_deps.c:37-128 | the list of the service is the directory in order, recorded on both sides; nothing else changes but by what is newly discovered; it fails only if a call is refused or something that can be reached is unreadable |
| CinitTree.Services.AddDependency | cinit/src/svc/check_add_deps.c:84-119 | one entry: the other service is found or built, then each service is listed by the other; it fails only for the same reasons |
| CinitTree.Services.StartIfFree | cinit/src/svc/gen_svc_tree.c:46-56 | a service without dependencies becomes a start service, any other is complete as it is |
| CinitTree.MultiplicityConfigured | cinit/src/svc/check_add_deps.c:99-119 | b is among a's needs, and a among those that need b, as often as a's directory names b; the same for wants |
| CinitTree.PendingIsFree | cinit/src/svc/gen_svc_tree.c:46-56 | deps_pending holds the services without dependencies, once each, and no others |
| CinitTree.EdgeStep | cinit/src/svc/check_add_deps.c:99-119 | recording an edge on both sides keeps the two counts equal for all pairs of services |
| CinitTree.RouteCovered | cinit/src/svc/gen_svc_tree.c:35-43 | a finished graph that holds a service holds all that can be reached from it |
| CinitTree.Services.ListSearch | cinit/src/svc/list_search.c:30-46 | the backward walk over the circle finds a service with the path if there is one |
| CinitTree.Services.ListSearchPid | cinit/src/svc/list_search_pid.c:30-45 | the same by process number; of several services with the number it finds the head, or else the one created last |
| CinitTree.StaleHides | cinit/src/svc/list_search_pid.c:30-45 | two services with one number, stale in the one and live in the other, of which the walk finds the stale one |
| CinitTree.Services.ListInsert | cinit/src/svc/list_insert.c:31-57 | the new service is last on a well-formed circle, with empty lists |
| CinitTree.Services.SvcCreate | cinit/src/svc/svc_create.c:33-56 | the service is to be respawned if the probe finds the file, runs once if there is none, and is given up by the caller otherwise |
| DepRing.Link | cinit/src/svc/dep_entry_add.c:32-44 | the circle through the old nodes becomes one through the old nodes and the new one, with the same head |
| DepRing.DepEntryDel | cinit/src/svc/dep_entry_del.c:34-55 | the rest of the circle is a circle that begins with the successor, or empty |
| DepRing.RingTurned | cinit/src/svc/svc_tree_exec.c:98 | stepping to the next entry turns the circle by one |
| CinitStarter.Starter.SvcTreeExec | cinit/src/svc/svc_tree_exec.c:46-115 | for any number of rounds and any exits noticed between them: the safety invariant holds throughout and the log of starts only grows; if nothing is refused no service fails or is given up, whatever exits; without exits and refused calls the loop ends, within the square of the number of services in rounds, if and only if no service that comes onto the list is blocked |
| CinitStarter.BlockedMeans | cinit/src/svc/svc_needs_status.c:37-59 | a service is blocked if and only if it comes onto the list and needs a once-service or one that is never started |
| CinitStarter.Starter.Round | cinit/src/svc/svc_tree_exec.c:59-112 | one round starts the head of the list if all its needs are up, gives it up if one of them has failed, and otherwise puts it last; the invariant is kept |
| CinitStarter.StartedInOrder | cinit/src/svc/svc_tree_exec.c:60-72 | every start found each need done or respawning and no process of the service itself; a once-service is started once |
| CinitStarter.NoneForgotten | cinit/src/svc/dep_needs_wants_add.c:51-78 | when the list is empty, a service that was neither started nor given up has dependencies and none of them was started |
| CinitStarter.WaitsForever | cinit/src/svc/svc_tree_exec.c:84-102 | as long as no exit is noticed, the needs of whatever has been started are respawning services |
| CinitStarter.NeverOnceFail | cinit/src/svc/svc_status_changed.c:51-65 | no exit makes a service count as failed, whatever its status, or takes a failure back, and without a failing fork no service is ever given up |
| CinitStarter.PendingEmptyIffNoneFree | cinit/src/svc/svc_tree_exec.c:46-60 | the loop's list is empty, and its first step a null dereference, if and only if every service depends on another |
| CinitStarter.BuiltStarts | cinit/src/svc/gen_svc_tree.c:46-56 | every graph that has been built satisfies the starter's invariant |
| CinitStarter.Starter.SvcNeedsStatus | cinit/src/svc/svc_needs_status.c:29-62 | failed if and only if some need has failed; started only if none has failed or is unfinished |
| CinitStarter.Starter.DepNeedsWantsAdd | cinit/src/svc/dep_needs_wants_add.c:38-81 | every dependent is on the list afterwards, was started or has been given up; the list stays a circle without duplicates |
| CinitStarter.Starter.SvcStart | cinit/src/svc/svc_start.c:39-76 | the service is logged with the state of its needs and of the process table, has a process of its own unless fork fails, and leaves the services that are due |
| CinitStarter.Starter.SvcStatusChanged | cinit/src/svc/svc_status_changed.c:39-73 | reaps exactly the reported processes; a service is taken to have exited if and only if it has a reported number and the backward walk finds it first; then a once-service is done and a respawning one is to be started again, and no other status changes |
| CinitStarter.ExitNoticed | cinit/src/svc/svc_status_changed.c:43-66 | so the exit of a live process reaches its service if and only if no service with the same, stale number comes first, and what becomes of the service depends only on its configuration |
| CinitStarter.Starter.NeverFails | cinit/src/svc/svc_needs_status.c:37-50 | a need has failed only if a process could not be made, also after exits |
| CinitStarter.StepExit | cinit/src/svc/list_search_pid.c:30-45 | whichever service a reaped number is taken to belong to, the invariant holds |
| Supervise.Supervisor.Supervise | s6_and_deps/s6-1.1.1/src/supervision/s6-supervise.c:435-507 | over any run of the main loop the process, announcement and no-restart invariants hold at each event, and when it ends the announced events are s, pairs of u and d, perhaps a u, and x; status and events agree if writing the status file never fails, and no wish is missing in the file |
| Supervise.Supervisor.Turn | s6_and_deps/s6-1.1.1/src/supervision/s6-supervise.c:491-503 | one event keeps the invariant and does exactly what its signals, commands or the timer mean, one after the other; once the last run was asked for, ./run is not started again; the loop ends with the service up only over control bytes that hold a start command after an exit command |
| Supervise.Supervisor.HandleControl | s6_and_deps/s6-1.1.1/src/supervision/s6-supervise.c:419-433 | read while the service is down, and if starting never fails, a batch ends the loop and leaves the service running if and only if its first exit command precedes every start command and one of those follows |
| Supervise.LookupRules | s6_and_deps/s6-1.1.1/src/supervision/s6-supervise.c:357-374 | each of the 115 entries of the table suits its state: kills and pauses only while up, starts only while down and on command, a timeout action only for the timer |
| Supervise.WishesObeyed | s6_and_deps/s6-1.1.1/src/supervision/s6-supervise.c:357-374 | what each command and signal means for the status, from every state |
| Supervise.Supervisor.PerformCommand | s6_and_deps/s6-1.1.1/src/supervision/s6-supervise.c:419-433 | a command does to state, status, deadline, processes and signals exactly what it means: x asks for the last run or ends the loop, up or once in state down starts the service or leaves a deadline of ten or sixty seconds, d terminates, every other letter sends its signal or changes its wish |
| Supervise.Supervisor.PerformStart | s6_and_deps/s6-1.1.1/src/supervision/s6-supervise.c:197-221 | a service that is wanted up is up or has a finite deadline afterwards, so no restart is lost |
| Supervise.Supervisor.TryStart | s6_and_deps/s6-1.1.1/src/supervision/s6-supervise.c:139-195 | up with a new, live process and an infinite deadline, or down with one of sixty or ten seconds, the first after a kill if the child could not report; the status is written before the event is sent |
| Supervise.Supervisor.UpEnds | s6_and_deps/s6-1.1.1/src/supervision/s6-supervise.c:266-274 | the status is written before d is sent; afterwards a finish process is live for five seconds, or the service is down for one, and the supervisor ends if that was the last run |
| Supervise.Supervisor.TryFinish | s6_and_deps/s6-1.1.1/src/supervision/s6-supervise.c:230-258 | a live finish process, the flag and a finite deadline, or down; after the last run a failing fork ends the loop |
| Supervise.Supervisor.FinishEnds | s6_and_deps/s6-1.1.1/src/supervision/s6-supervise.c:325-332 | down, without a process, for one second |
| Supervise.Supervisor.Kill | s6_and_deps/s6-1.1.1/src/supervision/s6-supervise.c:80-137 | each kill is recorded; its precondition, proved at every call, is that it goes to a child that has not been waited for |
| Supervise.SignalsMeant | s6_and_deps/s6-1.1.1/src/supervision/s6-supervise.c:357-374 | through the table each command letter, SIGTERM and SIGQUIT send the signals that they stand for while the service is up, and none in any other state |
| Supervise.LeavingParts | s6_and_deps/s6-1.1.1/src/supervision/s6-supervise.c:357-374 | x and the three signals lead a running service into its last run, its finish script into the last one, and end the supervisor of a service that is down; no other order but a start changes the state |
| Supervise.ControlAlphabet | s6_and_deps/s6-1.1.1/src/supervision/s6-supervise.c:419-433 | the letters of the control alphabet are the columns of the table, in order |
| Supervise.Supervisor.Perform | s6_and_deps/s6-1.1.1/src/supervision/s6-supervise.c:80-345 | each action keeps the invariant and has exactly its own effect on state, status, deadline and signals; the action for a timeout while up is never reached |
| Supervise.Supervisor.HandleSignals | s6_and_deps/s6-1.1.1/src/supervision/s6-supervise.c:381-417 | the signals are handled one after the other, each exactly as it is meant: SIGTERM and SIGQUIT take a running service down for good, SIGHUP waits for it to end, and all of them end the supervisor of a service that is down; the death of the tracked process is announced and leads to the finish script; signals never start ./run |
| Supervise.Supervisor.PerformTimeout | s6_and_deps/s6-1.1.1/src/supervision/s6-supervise.c:197-201 | the timer starts a service that is wanted up, sleeps for good if it is not, and kills a finish script that takes too long |
| Svwait.NoMissedTransition | s6_and_deps/s6-1.1.1/src/supervision/s6-svwait.c:64-98 | for every interleaving of a supervisor with a waiter that subscribes before it reads: once all events are applied and nothing is in flight, the waiter's bit is the state announced last if and only if it has heard an event or did not read the status of a finish script |
| Svwait.BitIsState | s6_and_deps/s6-1.1.1/src/supervision/s6-svwait.c:64-99 | the bit of a waiter that has applied what it was sent says whether the supervisor is up, with that one exception |
| Svwait.QuietMeansSettled | s6_and_deps/s6-1.1.1/src/supervision/s6-supervise.c:188-194 | if nothing more is announced, the status that was read had already been announced |
| Svwait.Waiter.Wait | s6_and_deps/s6-1.1.1/src/supervision/s6-svwait.c:75-99 | with subscriptions that go on it never dies, each bit is its first value overruled by the last event so far, and it ends exactly when the condition holds |
| Svwait.Waiter.Round | s6_and_deps/s6-1.1.1/src/supervision/s6-svwait.c:91-98 | one round; it succeeds if and only if no message is refused and every subscription has an answer; then the bit of a subscription that ends with its first event is that event |
| Svwait.FailsAfterEvent | s6_and_deps/s6-1.1.1/src/supervision/s6-svwait.c:91-98 | with -a or -o, a round fails if and only if some subscription has given its event in an earlier one |
| Svwait.Check | s6_and_deps/s6-1.1.1/src/supervision/s6-svwait.c:17-20 | all services, or with -o one of them, are in the wanted state |
| Svwait.Client.Update | s6_and_deps/s6-1.1.1/src/libftrig/ftrigr_update.c:11-42 | messages are handled in order up to the first that is refused; numbers of no subscription are ignored |
| Svwait.DeliverCounts | s6_and_deps/s6-1.1.1/src/libftrig/ftrigr_update.c:22-35 | a subscription that goes on counts its events modulo the word and keeps the last one |
| Svwait.DeliverRefuses | s6_and_deps/s6-1.1.1/src/libftrig/ftrigr_update.c:17-20 | a message for a subscription that is over is an error and changes nothing |
| Svwait.DeliverOnce | s6_and_deps/s6-1.1.1/src/libftrig/ftrigr_update.c:27-34 | a subscription that does not go on takes exactly one event |
| Svwait.OnceTaken | s6_and_deps/s6-1.1.1/src/supervision/s6-svwait.c:91-98 | with -a or -o the one event of a subscription goes into its bit, which stays as it is without one |
| Svwait.Client.CheckEvents | s6_and_deps/s6-1.1.1/src/libftrig/ftrigr_check.c:8-40 | hands out the count and the last event once, or an error |
| Svscan.Scanner.Run | s6_and_deps/s6-1.1.1/src/supervision/s6-svscan.c:442-462 | over any run: entries have distinct directories, nonzero process numbers are distinct and are exactly the live children, open pipe ends are divided among the entries, and there are at most 500; an inactive entry whose directory is not found again goes if and only if it had a process and all it had have died |
| Svscan.NeverVanishes | s6_and_deps/s6-1.1.1/src/supervision/s6-svscan.c:199-222 | an inactive entry without processes stays as it is for good unless its directory is found again |
| Svscan.Scanner.Turn | s6_and_deps/s6-1.1.1/src/supervision/s6-svscan.c:442-450 | one turn keeps all that; if fork and pipe do not fail, a turn with a scan leaves every directory found that had an entry, and no death, with each half running that ran or whose time had come, or waiting for the end of its old self, and every other one running unless the table is full; without a death or a scan the deadline is the default one, whoever waits to be restarted, and it is never in the past |
| Svscan.Scanner.ReapOne | s6_and_deps/s6-1.1.1/src/supervision/s6-svscan.c:171-223 | a dead child's entry loses it; an inactive entry loses its pipe and, without processes, its place; an entry marked -2 asks for a scan |
| Svscan.ReapedSound | s6_and_deps/s6-1.1.1/src/supervision/s6-svscan.c:173-223 | after a death the table still owns exactly the other children and the pipes that are still open |
| Svscan.OwnedRemove | s6_and_deps/s6-1.1.1/src/supervision/s6-svscan.c:221-222 | deleting by swapping keeps track of everything if and only if the deleted entry owned nothing |
| Svscan.Scanner.Check | s6_and_deps/s6-1.1.1/src/supervision/s6-svscan.c:264-353 | a directory that is known, or that has no logger and finds room in the table, has an active entry afterwards whose processes run or are due for a later retry, and run if their time has come and no call fails, or an entry that waits for the end of its old self; other entries keep their place and directory |
| Svscan.Scanner.Add | s6_and_deps/s6-1.1.1/src/supervision/s6-svscan.c:288-328 | a new entry owns nothing of what an older one left in the slot |
| Svscan.Scanner.TryStart | s6_and_deps/s6-1.1.1/src/supervision/s6-svscan.c:233-255 | never for a dying entry, so a logged service is only started on an open pipe; the new process is a child and belongs to the entry, unless fork fails, and then a time to try again is set |
| Svscan.Scanner.StartBoth | s6_and_deps/s6-1.1.1/src/supervision/s6-svscan.c:333-352 | afterwards each half runs or has a time to wait for, which bounds the deadline unless fork has just failed; if fork does not fail, a half whose time has come runs |
| Svscan.Scanner.Scan | s6_and_deps/s6-1.1.1/src/supervision/s6-svscan.c:355-385 | what is active afterwards was found in this scan; if no call fails, old entries that were found run or wait, new ones run, and a directory without an entry has met a full table |
| Svscan.Scanner.KillThem | s6_and_deps/s6-1.1.1/src/supervision/s6-svscan.c:81-95 | exactly the processes of the selected entries, all of them children |
| PathexecEnv.MergedAllMeaning | runit/runit-2.1.1/runit-2.1.1/src/pathexec_env.c:25-65 | for an environment with distinct names the final vector denotes the old map after the recorded sets and deletes in order, has distinct names and fits |
| PathexecEnv.Settings.Run | runit/runit-2.1.1/runit-2.1.1/src/pathexec_env.c:25-65 | the in-place merge computes that vector within the capacity computed before, and ends it with a null pointer |
| PathexecEnv.Settings.Merge | runit/runit-2.1.1/runit-2.1.1/src/pathexec_env.c:53-62 | one setting: the first entry for its name is overwritten by the last one, then the setting is appended |
| PathexecEnv.MergedMeaning | runit/runit-2.1.1/runit-2.1.1/src/pathexec_env.c:53-62 | one setting updates or deletes one key |
| PathexecEnv.MergedCounts | runit/runit-2.1.1/runit-2.1.1/src/pathexec_env.c:53-62 | for every environment: one entry fewer for the name, one more if it is set, and no other count changes |
| PathexecEnv.MergedDistinct | runit/runit-2.1.1/runit-2.1.1/src/pathexec_env.c:53-62 | names are distinct afterwards if and only if they were before, but for the name itself, which may occur once, or twice if it is deleted |
| PathexecEnv.MergedLookup | runit/runit-2.1.1/runit-2.1.1/src/pathexec_env.c:53-62 | a reader finds the new value first if and only if the name occurred at most once before |
| PathexecEnv.PlainSurvive | runit/runit-2.1.1/runit-2.1.1/src/pathexec_env.c:54-62 | entries without an equals sign survive |
| PathexecEnv.ByteEqual | runit/runit-2.1.1/runit-2.1.1/src/pathexec_env.c:55-56 | compares the name without looking past the terminator of the entry |
| PathexecEnv.Settings.Record | runit/runit-2.1.1/runit-2.1.1/src/pathexec_env.c:13-23 | the buffer holds the settings in order, each with its terminator, or is unchanged |
| BufferGet.Buffer.Get | runit/runit-2.1.1/runit-2.1.1/src/buffer_get.c:40-58 | bytes delivered, bytes held at the right end and bytes unread are the whole stream in order; what is held is handed out without reading; zero means the end of it, and without a failing read there is no error |
| BufferGet.Buffer.Getc | runit/runit-2.1.1/runit-2.1.1/src/buffer.h:44-48 | the macro delivers the next byte of the stream, from the buffer or by reading |
| BufferGet.Buffer.Feed | runit/runit-2.1.1/runit-2.1.1/src/buffer_get.c:27-38 | what was read is moved to the right end, and n + p stays the size |
| BufferGet.Buffer.GetThis | runit/runit-2.1.1/runit-2.1.1/src/buffer_get.c:18-25 | delivers the oldest bytes held |
| BufferGet.Buffer.Seek | runit/runit-2.1.1/runit-2.1.1/src/buffer_get.c:65-69 | the same without a copy |
| BufferGet.ByteCopyr | runit/runit-2.1.1/runit-2.1.1/src/byte_cr.c:5-18 | a correct move to the right even if source and destination overlap, touching nothing else |
| SwapScan.Table.Scan | s6_and_deps/s6-1.1.1/src/libftrig/s6-ftrigrd.c:144-171 | although removal swaps and the index wraps, each entry is examined once, the survivors and the messages are those of exactly these examinations |
| SwapScan.Table.Examine | s6_and_deps/s6-1.1.1/src/libs6lock/s6lockd.c:207-232 | one turn with the unsigned index going back and forth |
| SwapScan.OwnResults | s6_and_deps/s6-1.1.1/src/libftrig/s6-ftrigrd.c:112-119 | with the places given before the poll, examined once means examined once against its own result |
| SwapScan.OneMessageEach | s6_and_deps/s6-1.1.1/src/libs6lock/s6lockd.c:211-231 | an entry that is removed has sent exactly one message |
| SwapScan.PatternWatched | s6_and_deps/s6-1.1.1/src/libftrig/s6-ftrigrd.c:148-170 | a subscription is silent until the characters since its start match its pattern or can not do so any more; then it tells the last one, or fails, and goes unless it repeats |
| SwapScan.LockWatched | s6_and_deps/s6-1.1.1/src/libs6lock/s6lockd.c:211-231 | a lock is granted exactly when its helper has written an exclamation mark, and lost when the helper fails or writes anything else |
| SwapScan.EachTold | s6_and_deps/s6-1.1.1/src/libs6lock/s6lockd.c:207-232 | over a whole scan in any order, an entry that does not survive has sent exactly one message under its number, and no entry more than one |
| SwapScan.RemovalsTold | s6_and_deps/s6-1.1.1/src/libftrig/s6-ftrigrd.c:144-171 | the same for the subscriptions of the one daemon and the locks of the other |
| SwapScan.Table.Remove | s6_and_deps/s6-1.1.1/src/libftrig/s6-ftrigrd.c:76-82 | the last entry takes the place of the removed one |
| SwapScan.Table.Prepare | s6_and_deps/s6-1.1.1/src/libs6lock/s6lockd.c:157-164 | every entry gets the place of its poll result |
| Pmatch.Match | runit/runit-2.1.1/runit-2.1.1/src/pmatch.c:2-40 | ends for every memory, text and byte behind the text, with the verdict that reading pattern characters in memory gives, a stray read included |
| Pmatch.Confined | runit/runit-2.1.1/runit-2.1.1/src/pmatch.c:2-40 | that verdict is the pattern's own unless the matcher runs past the end of its pattern; then it is that of whatever comes next |
| Pmatch.StaysInside | runit/runit-2.1.1/runit-2.1.1/src/pmatch.c:15-22 | it never runs past a pattern without a dangling plus, nor on a text without a zero byte |
| Pmatch.LeavesIff | runit/runit-2.1.1/runit-2.1.1/src/pmatch.c:15-22 | with a dangling plus it does if and only if what precedes that plus means the text up to a zero byte and the text goes on behind the zeros |
| Pmatch.ZeroLeaves | runit/runit-2.1.1/runit-2.1.1/src/pmatch.c:15-22 | a line with a zero byte that "+a+" takes for its own end, so that the next instruction accepts it |
| Pmatch.AcceptedIsGlob | runit/runit-2.1.1/runit-2.1.1/src/pmatch.c:7-14 | without a plus, what is accepted matches in the usual sense of a star |
| Pmatch.AcceptedMeans | runit/runit-2.1.1/runit-2.1.1/src/pmatch.c:7-14 | if each star is last or followed by an ordinary character, a text is accepted if and only if runs for the stars exist that avoid the character that follows |
| Pmatch.DoubleStar | runit/runit-2.1.1/runit-2.1.1/src/pmatch.c:7-14 | two stars accept exactly the texts that hold a star, although they match every text in the usual sense |
| Pmatch.PlusMeans | runit/runit-2.1.1/runit-2.1.1/src/pmatch.c:15-22 | a text is accepted if and only if the pattern means it, a plus standing for one or more of its character, or the pattern cut off behind one of its pluses does, or cut off before one that looks for the byte behind the text |
| Pmatch.PlusFails | runit/runit-2.1.1/runit-2.1.1/src/pmatch.c:15-22 | three texts on which the matcher and the documented meaning differ |
| Pmatch.Logmatch | runit/runit-2.1.1/runit-2.1.1/src/svlogd.c:643-663 | the signs of the last instructions of each sort whose memory accepts the line, or the defaults; and whether memory behind the instructions was read |
| Pmatch.SignAccepted | runit/runit-2.1.1/runit-2.1.1/src/svlogd.c:643-663 | without a dangling plus or without a zero byte in the line, these are the last instructions whose own patterns accept it, and nothing stray is read |
| Decimal.RoundTrip | runit/runit-2.1.1/runit-2.1.1/src/scan_ulong.c:5-16 | what is printed, with leading zeros or without, is read back whole |
| Decimal.FmtUlong | runit/runit-2.1.1/runit-2.1.1/src/fmt_ulong.c:5-15 | the canonical digits, and nothing else is written |
| Decimal.FmtUint0 | runit/runit-2.1.1/runit-2.1.1/src/fmt_uint0.c:5-12 | padded to the width, or longer if the number is |
| Decimal.ScanUlong | runit/runit-2.1.1/runit-2.1.1/src/scan_ulong.c:5-16 | the longest run of digits, its value modulo the word |

## Left out

- S6Log.LogDir.Finish: when it is killed part-way, only the crash invariant is stated of the directory.
- S6Log.LogDir.LogdirTrim: total sizes are not wrapped at 64 bits, nor the number of entries at 32, and what reading past the entries does is not modelled.
- S6Log.Run: that something of every input is accepted is stated for directories without a processor, where a rotation needs no other process.
- S6Log.LogDir.Init: file sizes wrap at 32 bits as the byte count does, but the directory lock, mkdir and allocation are taken to succeed.
- Splitting.FullFileSplitsLongLine: for full writes and no forced rotation, and for blocks whose length with size and tolerance fits 32 bits.
- The clock of s6-log never shows a time that it has shown before; with a clock that goes back, archive names may collide.
- A processor of s6-log dies with its parent and is modelled by its four opens, its output and its exit; its state files only matter as names.
- Power loss: only process crashes are modelled, and completed file system steps persist; fsync has no effect but its failure.
- s6-log's script, selections, status files, retry times and the buffer in front of logdir_write.
- svlogd's processors and the child signal, UDP output, removal of old files when the disk is full, standard error output, configuration parsing and the line loop of main, which drops a last line without a newline.
- Svlogd.LogDir.Rotate: calls that are retried until they succeed are one choice between success and never, which is success if no call fails; a loop that finds no free name for an old file is a choice of its own.
- Svlogd.LogDir.Close: the callers have emptied the buffer, and that is its precondition; with bytes in it, a file at its limit could not be flushed any more.
- Pmatch.PlusMeans: for patterns in which every star is last or followed by an ordinary character and the character of a plus does not come again at once; `PlusFails` and `DoubleStar` show what happens otherwise.
- Pmatch.LeavesIff: for the same patterns, apart from the dangling plus.
- Signedness of characters, and poll timeouts of svlogd.
- The truncation of paths to a fixed length in cinit, and its fixed-size path buffers: paths are unbounded here, and names that do not resolve are skipped as in the code.
- CinitTree.Services.BuildTree: which allocation or directory call is refused is not told apart.
- CinitStarter.Starter.SvcTreeExec: exits are noticed between rounds, not within one; the two-second sleep and the messages have no effect. It works on deps_pending itself, where the code moves a copy of that pointer.
- cinit's console, IPC, shutdown, disabling and stopping of services.
- Supervise.Supervisor.Announce: after a failed write of the status file the agreement of file and events is not claimed any more (the flag `faithful`).
- Times of s6-supervise and s6-svwait: deadlines are infinite or a number of seconds, and the timer may run out whenever it is finite.
- Svwait.BitIsState: delivery of the daemon's messages is reliable and in order.
- Svwait.Waiter.Wait: fewer than 2^31 events arrive for one service in one round.
- s6-svscan's signals, control commands and final exec, but for the flags they set.
- SwapScan.Table.Scan: both daemons share the loop, with what each does to an entry as a function; requests of clients, regular expressions and the lock helper's process are not modelled, and the timeout branch of s6lockd is left out. `EachTold` is for clients that number their entries apart.
- BufferGet.Buffer.Get: interrupted reads are repeated until something else happens.
- PathexecEnv.Settings.Run: the new program itself, and a failed allocation, which skips the merge.
- Calendar time (fmt_ptime), the remaining string and byte functions of runit, runsv, runit, sv and the two other copies of runit.
