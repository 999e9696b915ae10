# YurtOS host and C library models

A Dafny model of the parts of YurtOS in which several pieces of code have to
agree with each other: the re-entrant spawn pump of the JavaScript host, signal
delivery in the guest C library, posix_spawn and the binary record it sends, the
glob matcher, the versioned exit-wait protocol of the Deno host, and the codecs
and tables around them.

| file | what it models |
|---|---|
| `Kernel.dfy`, `PumpState.dfy`, `SpawnPump.dfy` | the kernel's process table as the hosts drive it, the invariant of a nested run, and `CachedProcessEngine` with `host_wait` over guest programs given as finite trees |
| `Signals.dfy`, `SignalLaws.dfy` | mask, pending word and delivery loop as a step machine with an explicit stack of handlers, suspends and waits; the C functions between two re-entries as methods; what a program sees of them |
| `Fnmatch.dfy`, `FnmatchLaws.dfy` | `fnmatch` against a declarative token meaning; what that means in patterns and strings |
| `SpawnFds.dfy`, `PosixSpawn.dfy` | file actions, the child's descriptor table and its summary in the request; the whole of posix_spawn, and what it means against POSIX |
| `SpawnRecord.dfy`, `SpawnRequest.dfy`, `SpawnDecode.dfy` | the bump-allocated request record, the request in it, and its two readers |
| `ArgvWire.dfy`, `SpawnChain.dfy` | argument vectors and pending spawns on the wire; the whole way from `posix_spawn` to the child |
| `ExitWait.dfy` | waiters, kernel calls and exit reports in any interleaving |
| `KvStore.dfy`, `AddrRing.dfy`, `DirPaging.dfy`, `FetchRecord.dfy`, `Iovecs.dfy` | the in-memory key-value backend, the resolver's address ring, `fd_readdir`, the fetch response record, scatter and gather |
| `Bytes.dfy`, `Memory.dfy`, `Sequences.dfy`, `Wrappers.dfy` | little-endian words, byte arrays, sequences, option and result types |

Where the code and its own comments or the standard disagree the model follows the
code and states how far it goes:

- `host_spawn` says its reader must decide as the native one does on every
  malformed input, with the same error. It does not read five of the fields, so it
  does not: `SpawnDecode.ReadersAgree` gives the exact extent of both halves,
  `ErrorsCanDiffer` an input, and `NativeReadsBack` beside `HostReadsBack` shows
  records built by the C library itself, those with an environment entry that starts
  with `=`, on which the two readers differ.
- The runaway guard of `runPendingSpawns` throws on round 100 001 even when the
  queue is empty by then (`SpawnPump.DrainPlain`).
- A signal is not blocked while its own handler runs, unlike section 2.4 of the
  System Interfaces volume of POSIX (`Signals.EntersExactlyWhen` and the three
  lemmas after it).
- `posix_spawn` departs from POSIX in exactly four ways as far as
  descriptors go (`PosixSpawn.MeansPosixExactlyWhen`): a descriptor that the parent
  opens for a file action and no action names is handed to the child (`OpenLeaks`), a
  dup2 from and a close of a number that is no descriptor of the child are performed
  (`DupTakesStray`, `CloseTakesStray`), and descriptors from 2048 on are inherited
  only when an action names them (`HighIsMissed`).
- The last chdir wins, which a comment calls POSIX style; it does exactly when it is
  absolute or the only one (`PosixSpawn.LastChdirExactlyWhen`).
- A blocking wait for any child does not block in the Deno host
  (`ExitWait.AgainOnlyForAnyChild`).
- Brackets are recognised before slashes under FNM_PATHNAME
  (`Fnmatch.BracketsReadAsPosix`), and a range whose ends are in the wrong order
  still accepts its first end (`FnmatchLaws.RangeBracket`).
- The two hosts split a wait status of 192 differently (`ExitWait.StatusesAgree`).

## Model

| member | source | states |
|---|---|---|
| `SpawnPump.CachedProcessEngine.RunPendingSpawnsFromHost` | packages/kernel-host-interface-js/mod.ts:2533-2550 | after an outer drain every process queued or spawned on the way, however waits nested, has run exactly once, in the order of spawning, and has exactly one recorded exit, the code its program reaches with the spawns and waits it made: 0 for one that returns or has no entry, n for proc_exit(n) with a 32-bit n, 134 for a trap; queue empty, depth 0, both tables as before; the runaway error means at least 100 000 runs and, for programs that never wait, comes exactly from that population on |
| `SpawnPump.CachedProcessEngine.RunPendingSpawns` | packages/kernel-host-interface-js/mod.ts:2533-2550 | the drain loop ends with an empty queue or with the runaway error after at least 100 000 runs; for queues of programs that never wait it fails exactly from a population of 100 000 on, and with exactly that many it fails on an empty queue; it keeps the invariant, the stack and the processes below it |
| `SpawnPump.CachedProcessEngine.HostWait` | packages/kernel-host-interface-js/mod.ts:1892-1922 | a blocking wait terminates: it fails with EDEADLK exactly when it would block at depth 256 and then changes nothing; otherwise one drain suffices and it returns a reaped child of the caller with that child's recorded status, never EAGAIN or ECHILD; WNOHANG is one system call |
| `SpawnPump.CachedProcessEngine.DrainForWait` | packages/kernel-host-interface-js/mod.ts:1906-1919 | the depth counter is put back on every way out of a nested drain, including the runaway error; with an empty queue nothing changes |
| `SpawnPump.CachedProcessEngine.WaitOnce` | packages/kernel-host-interface-js/mod.ts:1904-1905 | one SYS_WAIT: reaps only a child of the caller and leaves the queue, the depth and the stack alone |
| `SpawnPump.CachedProcessEngine.RunCachedChild` | packages/kernel-host-interface-js/mod.ts:2409-2520 | the child is in both tables exactly while it runs, and the code returned is the one its program reaches with the spawns and waits it made: 0, the proc_exit argument as a 32-bit integer, or 134 |
| `SpawnPump.CachedProcessEngine.Register` | packages/kernel-host-interface-js/mod.ts:2466-2479 | registration keeps the invariant that the tables are the embedder's entries plus one per child on the run stack |
| `SpawnPump.CachedProcessEngine.Deregister` | packages/kernel-host-interface-js/mod.ts:2510-2519 | deregistration takes out exactly the entry registration made |
| `SpawnPump.CachedProcessEngine.DrainOnePendingSpawn` | packages/kernel-host-interface-js/mod.ts:2386-2396 | the head of the queue becomes the running child and is logged as run |
| `SpawnPump.CachedProcessEngine.RecordChildExit` | packages/kernel-host-interface-js/mod.ts:2543-2548 | the kernel knows the pid, so recordExit never fails here, and the exit is logged once |
| `SpawnPump.CachedProcessEngine.HostSpawn` | packages/kernel-wasm/src/dispatch/process.rs:1438-1503 | a spawn adds one fresh pid at the tail of the queue and keeps the whole invariant |
| `SpawnPump.CachedProcessEngine.RunStart` | packages/kernel-host-interface-js/mod.ts:2571-2577 | a root process with nested waits leaves depth 0, the tables as they were and the invariant intact, and ends as its program does with the spawns and waits it made |
| `SpawnPump.CachedProcessEngine.RunGuest` | packages/kernel-host-interface-js/mod.ts:2409-2520 | running any finite guest tree terminates, returns to the same stack, keeps the invariant at every nesting level, and the spawns and waits it made are a run of its program, whose end its outcome is |
| `SpawnPump.CachedProcessEngine.RunSpawn` | packages/kernel-host-interface-js/mod.ts:1852-1874 | a guest at a spawn goes on knowing the child it was given |
| `SpawnPump.CachedProcessEngine.RunWait` | packages/kernel-host-interface-js/mod.ts:1892-1922 | a guest at a wait goes on in the branch its answer selects and ends as its program does on that answer and the later ones, an error thrown out of a nested drain included |
| `SpawnPump.DrainPlain` | packages/kernel-host-interface-js/mod.ts:2533-2550 | draining n programs that only return fails exactly for n of 100 000 or more; with exactly 100 000 the queue is empty when the guard throws |
| `SpawnPump.AllocSucceeds` | packages/kernel-wasm/src/kernel.rs:956-969 | while fewer processes are known than there are spawn pids a spawn finds one |
| `PumpState.StepSpawnKeepsInv` | packages/kernel-wasm/src/dispatch/process.rs:1438-1503 | spawning keeps the queue, log, stack, family and table invariants together |
| `PumpState.StepDrainKeepsInv` | packages/kernel-wasm/src/kernel.rs:978-980 | draining keeps them: a pid is never drained twice |
| `PumpState.StepRegisterKeepsInv` | packages/kernel-host-interface-js/mod.ts:2466-2479 | registering overwrites no entry: handles and pids in the tables are fresh |
| `PumpState.StepDeregisterKeepsInv` | packages/kernel-host-interface-js/mod.ts:2510-2519 | deregistering restores the tables to the frames that remain |
| `PumpState.StepExitKeepsInv` | packages/kernel-wasm/src/dispatch/process.rs:1159-1178 | recording an exit keeps them: a pid has an exit exactly when it ran and left the stack |
| `PumpState.EnterWaitKeepsInv` | packages/kernel-host-interface-js/mod.ts:1906-1915 | entering a drain below the limit keeps depth equal to the number of active drains, at most 256 |
| `PumpState.LeaveWaitKeepsInv` | packages/kernel-host-interface-js/mod.ts:1916-1919 | leaving a drain keeps that equality |
| `PumpState.StepWaitKeepsInv` | packages/kernel-wasm/src/dispatch/process.rs:1185-1229 | a wait, successful or not, keeps all invariants |
| `PumpState.StepActKeepsInv` | packages/kernel-host-interface-js/mod.ts:1922-1950 | a spawn or a wait returning to its guest keeps the link between recorded codes and what processes did: only processes that have not exited act, and a reaped child is one that was asked for, with its recorded status |
| `PumpState.EmptyQueueMeansNoAgain` | packages/kernel-host-interface-js/mod.ts:1914-1921 | once the queue is empty no child of the running process is queued, running or suspended, so SYS_WAIT cannot answer EAGAIN |
| `PumpState.DrainedAgainExactlyWhen` | packages/kernel-host-interface-js/mod.ts:1906-1921 | after a drain a wait meets EAGAIN exactly when it asks for a live child that is neither queued nor running above the caller and for none that has exited |
| `PumpState.TreeExcludesStranded` | packages/kernel-host-interface-js/mod.ts:1906-1921 | the family part of the invariant excludes exactly such children |
| `PumpState.WaitWouldRepeat` | packages/kernel-host-interface-js/mod.ts:1906-1921 | with an empty queue, on which a drain changes nothing, a turn of the blocking loop that meets EAGAIN ends in the state and answer it began with |
| `PumpState.DrainedExactlyOnce` | packages/kernel-host-interface-js/mod.ts:2533-2550 | with the queue empty and no child on the stack every known process ran once, exited once, what it did is a run of its program, and the kernel holds the code that run ends with |
| `PumpState.RunsInOrder` | packages/kernel-wasm/src/kernel.rs:978-980 | the processes that ran are a prefix of those spawned, in the order of spawning, however drains nest, and all of them once the queue is empty |
| `PumpState.ToInt32` | packages/kernel-host-interface-js/mod.ts:2496 | the 32-bit integer that is congruent to the argument modulo 2^32 |
| `PumpState.EndFits` | packages/kernel-host-interface-js/mod.ts:2485-2505 | a program that returns or has no entry ends with 0, proc_exit(n) with the 32-bit integer congruent to n and so with n itself when it is one, a trap with 134, and a wait goes on in the branch for success, failure or error that its answer selects |
| `PumpState.RecordedFits` | packages/kernel-host-interface-js/mod.ts:2543-2548 | that is the code the kernel holds for every process after a drain |
| `PumpState.AsksForItsChild` | packages/kernel-host-interface-js/mod.ts:1892-1922 | in every run a program that spawns two children and waits for the first or the second asks for the pid it was given for that one |
| `PumpState.AsksAsWritten` | packages/kernel-host-interface-js/mod.ts:1892-1922 | and one that waits for any child, or for a pid it knows, asks for that |
| `Kernel.FirstFree` | packages/kernel-wasm/src/kernel.rs:956-969 | the search returns a free pid of the range, or there is none |
| `Kernel.AllocSpawnPid` | packages/kernel-wasm/src/kernel.rs:956-969 | an allocated pid is free and from 1000 to the top of 32 bits; none is returned exactly when all of those are taken |
| `Kernel.FirstExited` | packages/kernel-wasm/src/dispatch/process.rs:1206-1210 | finds an exited candidate exactly when there is one |
| `Kernel.WaitAnswers` | packages/kernel-wasm/src/dispatch/process.rs:1185-1229 | a wait for any child reaps the first of the caller's children that has exited, a wait for an own exited child reaps that one with its status, ECHILD comes exactly when there is no such child and EAGAIN exactly when none of them has exited |
| `Kernel.ReapTakesOne` | packages/kernel-wasm/src/dispatch/process.rs:1221-1224 | reaping takes the child off its parent's list, keeps the order of the rest and changes nothing else |
| `Kernel.NextPid` | packages/kernel-wasm/src/kernel.rs:956-969 | the next spawn gets the lowest free pid above the last one, or the lowest of all when those are taken |
| `Signals.StepKeepsInv` | abi/src/yurt_signal.c:254-418 | every step, with handlers that raise, change the mask, suspend or wait, keeps: the delivering flag is set exactly when one delivery loop is on the stack, never two; without one every pending signal is blocked; every pending signal has a compact slot |
| `Signals.ReachableInv` | abi/src/yurt_signal.c:254-418 | so in every reachable state |
| `Signals.Conservation` | abi/src/yurt_signal.c:306-418 | over any run raises plus the earlier pending bit equal dispatches plus receipts plus coalesced raises plus the pending bit, for each signal: none is lost or invented |
| `Signals.StepBalances` | abi/src/yurt_signal.c:306-418 | the same balance for one step |
| `Signals.PendingClearedOnlyByDelivery` | abi/src/yurt_signal.c:306-418 | a pending bit is cleared only by a dispatch or a sigtimedwait receipt of that signal |
| `Signals.StepUnwound` | abi/src/yurt_signal.c:254-304 | only a sigprocmask outside every open sigsuspend changes the mask the program returns to |
| `Signals.MaskIsTheOneAskedFor` | abi/src/yurt_signal.c:289-304 | however sigsuspend nests through handlers, once the stack unwinds the mask is the one the program's own sigprocmask calls made |
| `Signals.QuietDelivery` | abi/src/yurt_signal.c:391-418 | when handlers leave the signal layer alone a delivery dispatches each deliverable signal once, lowest number first, and leaves exactly the others pending |
| `Signals.EntersExactlyWhen` | abi/src/yurt_signal.c:349-418 | a step enters the handler of a signal, inside itself or not, exactly when it raises the signal or the delivery loop takes it, the mask does not hold it, no exec child takes it and its action is a function |
| `Signals.HandlerNestsToAnyDepth` | abi/src/yurt_signal.c:379-382 | a signal is not blocked while its handler runs: wherever the guest runs and the mask does not hold it, its handler can be entered inside itself to any depth |
| `Signals.NoMaskHoldsUnslotted` | abi/src/yurt_signal.c:67-84 | for a signal without a compact slot no mask prevents that |
| `Signals.HeldNeverEntered` | abi/src/yurt_signal.c:363-367 | in any run through which the mask holds a signal its handler is never entered again |
| `Signals.UnblockedRaise` | abi/src/yurt_signal.c:349-389 | raising an unblocked signal dispatches it at once |
| `Signals.BlockedRaise` | abi/src/yurt_signal.c:363-367 | raising a blocked signal dispatches nothing and leaves it pending, coalesced when it already was |
| `Signals.FirstDeliverable` | abi/src/yurt_signal.c:398-414 | the lowest deliverable signal, or there is none |
| `Signals.FirstReceivable` | abi/src/yurt_signal.c:320-336 | the lowest pending signal of the wanted slots, or there is none |
| `Signals.SignalLayer.RaiseNow` | abi/src/yurt_signal.c:349-389 | the C function up to the handler call has the specified effect on mask, pending word and flag |
| `Signals.SignalLayer.ScanPending` | abi/src/yurt_signal.c:398-414 | one scan takes exactly the lowest deliverable signal off the pending word |
| `Signals.SignalLayer.TakeWanted` | abi/src/yurt_signal.c:320-336 | sigtimedwait takes exactly the lowest wanted pending signal |
| `Signals.SignalLayer.ChangeMask` | abi/src/yurt_signal.c:254-282 | after block a slot is in the mask exactly when it was there or is in the set, after unblock exactly when it was there and is not in the set, after setmask exactly when it is in the set; the old mask is returned; a bad `how` changes nothing and fails; a delivery follows exactly when the mask was set |
| `SignalLaws.RunsKeepInv` | abi/src/yurt_signal.c:254-418 | the initial state satisfies the invariant, and so does every state of every run from it |
| `SignalLaws.MaskBySlot` | abi/src/yurt_signal.c:254-282 | the step of a sigprocmask changes the mask slot by slot as block, unblock and setmask say |
| `SignalLaws.MaskStays` | abi/src/yurt_signal.c:254-418 | a run without sigprocmask that enters and leaves no sigsuspend does not change the mask |
| `SignalLaws.HeldByMask` | abi/src/yurt_signal.c:363-367 | so it holds throughout what the mask held at its start |
| `SignalLaws.BlockHolds` | abi/src/yurt_signal.c:266-269 | after sigprocmask(SIG_BLOCK) a raise of a signal of the set leaves it pending and enters no handler, wherever in a run that leaves the mask alone |
| `SignalLaws.UnblockDelivers` | abi/src/yurt_signal.c:270-273 | a pending signal that sigprocmask(SIG_UNBLOCK) lets go has been dispatched, or taken by sigtimedwait, when the delivery ends, in every run that leaves the mask alone |
| `SignalLaws.RaiseDispatches` | abi/src/yurt_signal.c:349-389 | a raise the mask does not hold calls the handler that is set, does nothing when ignored, forwarded or harmless by default, and otherwise ends the process with 128 plus the signal |
| `SignalLaws.RaiseHeld` | abi/src/yurt_signal.c:363-367 | a raise the mask holds makes the signal pending and does nothing else |
| `SignalLaws.WhoMayStep` | abi/src/yurt_signal.c:289-336 | the program and handlers call while they are on top of the stack; the host raises exactly while sigsuspend or sigtimedwait yields |
| `SignalLaws.SuspendUsesMask` | abi/src/yurt_signal.c:289-304 | while sigsuspend waits the mask is the one it was given |
| `SignalLaws.SuspendReturns` | abi/src/yurt_signal.c:289-304 | with nothing to deliver it returns after one yield to where it was called, with the mask put back |
| `SignalLaws.TimedWaitTakesLowest` | abi/src/yurt_signal.c:306-340 | sigtimedwait takes the lowest pending signal of the wanted slots and yields exactly when there is none |
| `SignalLaws.SurvivesExactlyWhen` | abi/src/yurt_signal.c:372-389 | the signals a quiet delivery is stated for are those whose dispatch does not end the process |
| `SignalLaws.WhoseSlot` | abi/src/yurt_signal.c:67-84 | which signals have a slot, and which signals each slot stands for |
| `SignalLaws.DefaultAction` | abi/src/yurt_signal.c:123-150 | by default every signal from 1 to 31 ends the process but ten |
| `Fnmatch.MatchHere` | abi/src/yurt_fnmatch.c:72-141 | the backtracking matcher accepts exactly the strings that can be cut into pieces, one per token of the pattern, under all five flags, and terminates |
| `Fnmatch.MatchStar` | abi/src/yurt_fnmatch.c:94-109 | the star case, with its collapse of star runs and its early exits, decides the same meaning |
| `Fnmatch.BracketMatch` | abi/src/yurt_fnmatch.c:18-70 | whether a bracket accepts a character and where it ends; the end does not depend on the character; an unclosed bracket is reported as such |
| `Fnmatch.FnMatch` | abi/src/yurt_fnmatch.c:143-146 | 0 exactly for a match, 1 otherwise and for null arguments |
| `Fnmatch.MatchesCons` | abi/src/yurt_fnmatch.c:72-141 | the declarative meaning unfolds one token at a time |
| `Fnmatch.StarStar` | abi/src/yurt_fnmatch.c:95 | a run of stars means one star |
| `Fnmatch.TokensFlags` | abi/src/yurt_fnmatch.c:72-141 | how a pattern is read depends on FNM_NOESCAPE only |
| `Fnmatch.LeadingDirIsPrefixMatch` | abi/src/yurt_fnmatch.c:81-84 | FNM_LEADING_DIR matches exactly when the whole string or a part ending before a slash matches without the flag |
| `Fnmatch.QuotedMatchesItself` | abi/src/yurt_fnmatch.c:128-138 | a fully quoted text matches itself, up to case where case is folded, and nothing else |
| `Fnmatch.PathnameSlashesAreLiteral` | abi/src/yurt_fnmatch.c:9-11 | under FNM_PATHNAME slashes pair off: however a matched string is cut, each slash of the matched part is the piece of a literal slash of the pattern, and each literal slash takes a slash |
| `Fnmatch.WrittenPatternReadsBack` | abi/src/yurt_fnmatch.c:18-141 | with escapes on, every list of literals, wildcards and non-empty brackets of characters and ranges, written out with quoting, is read back token by token |
| `Fnmatch.BracketsReadAsPosix` | abi/src/yurt_fnmatch.c:18-70 | a pattern is read with slashes identified before brackets, as section 2.13.3 of the Shell and Utilities volume of POSIX says, exactly when FNM_PATHNAME is off or no bracket has a slash inside |
| `Fnmatch.SlashBracketMatchesNothing` | abi/src/yurt_fnmatch.c:111-127 | under FNM_PATHNAME a bracket around a slash matches no string, where POSIX has it match its own text |
| `FnmatchLaws.LeadingPeriodIsLiteral` | abi/src/yurt_fnmatch.c:13-16 | under FNM_PERIOD a leading period, and with FNM_PATHNAME one after a slash, is the piece of a literal period however the string is cut |
| `FnmatchLaws.WildSparesPeriod` | abi/src/yurt_fnmatch.c:94-127 | so a pattern that starts with a star, a question mark or a closed bracket matches no string that starts with a period |
| `FnmatchLaws.StarMatches` | abi/src/yurt_fnmatch.c:94-109 | a star matches exactly the strings without a leading period under FNM_PERIOD and without a slash under FNM_PATHNAME |
| `FnmatchLaws.QuestionMatches` | abi/src/yurt_fnmatch.c:86-92 | a question mark matches exactly one character, with the same exceptions |
| `FnmatchLaws.QuestionInside` | abi/src/yurt_fnmatch.c:86-92 | behind a character it spares a period exactly after a slash under both flags |
| `FnmatchLaws.StarInside` | abi/src/yurt_fnmatch.c:94-109 | and so does a star |
| `FnmatchLaws.TextMatchesItself` | abi/src/yurt_fnmatch.c:128-138 | a text without special characters, or with all of them quoted, matches itself, in either case of each letter exactly under FNM_CASEFOLD, and nothing else |
| `FnmatchLaws.LastBackslash` | abi/src/yurt_fnmatch.c:128-138 | a backslash that ends the pattern means itself |
| `FnmatchLaws.BracketMatches` | abi/src/yurt_fnmatch.c:111-127 | a bracket matches exactly one character that its items accept, or do not when negated, with the same exceptions |
| `FnmatchLaws.PairBracket` | abi/src/yurt_fnmatch.c:18-70 | a bracket of two characters accepts these, in either case under FNM_CASEFOLD, and behind an exclamation mark or a caret all others |
| `FnmatchLaws.RangeBracket` | abi/src/yurt_fnmatch.c:45-62 | a range accepts the characters between its ends, and its first end even when there are none |
| `FnmatchLaws.WrittenReadsBack` | abi/src/yurt_fnmatch.c:18-141 | a written pattern is read as the tokens it was written from |
| `FnmatchLaws.SlashlessReadsAsPosix` | abi/src/yurt_fnmatch.c:18-70 | a pattern without a slash is read as POSIX says |
| `SpawnFds.ResolveSpawnFds` | abi/src/yurt_spawn.c:457-513 | one pass over the actions succeeds exactly when the left-to-right fold of open, close and dup2 over the identity table does; its slots are then the specified ones, slots and stdio hold the folded table, one slot per descriptor, in arrays that never overflow; what was opened is recorded even on failure |
| `SpawnFds.ResolveAction` | abi/src/yurt_spawn.c:467-511 | one action updates slots and stdio to the folded table, or fails exactly when the fold does |
| `SpawnFds.SetChildMapping` | abi/src/yurt_spawn.c:414-436 | replaces the slot of a touched descriptor or takes a new one, failing exactly for a negative descriptor or a full array |
| `SpawnFds.ResolveChildParentFd` | abi/src/yurt_spawn.c:438-455 | the parent's descriptor behind a child's one, closed ones included |
| `SpawnFds.ClosedByAgrees` | abi/src/yurt_spawn.c:526-539 | the rescan of the actions for closed descriptors agrees with the folded table |
| `SpawnFds.ChildFdIsClosed` | abi/src/yurt_spawn.c:526-539 | the loop computes that rescan: the last action on the descriptor decides |
| `SpawnFds.ChildFdIsExplicitlyMapped` | abi/src/yurt_spawn.c:346-351 | true exactly for descriptors the table maps and does not close |
| `SpawnFds.IsInherited` | abi/src/yurt_spawn.c:359-364 | a descriptor is inherited exactly when no action touched it |
| `SpawnFds.PassFds` | abi/src/yurt_spawn.c:353-380 | the two loops list exactly the untouched descriptors from 3 to 2047, in order |
| `SpawnFds.BuildFdMap` | abi/src/yurt_spawn.c:382-404 | the two loops list exactly the open mappings of descriptors from 3 up |
| `SpawnFds.FdMapHas` | abi/src/yurt_spawn.c:382-404 | a pair is listed exactly when the table maps that child descriptor to that parent one |
| `SpawnFds.RequestMeansTable` | abi/src/yurt_spawn.c:346-404 | stdio, inherited list and mapping list read back to the folded child table exactly for descriptors below 2048 or touched by an action |
| `SpawnFds.RequestPartitions` | abi/src/yurt_spawn.c:346-404 | each descriptor from 3 to 2047 is in exactly one of inherited, mapped, closed |
| `SpawnFds.ParentsAreDescriptors` | abi/src/yurt_spawn.c:457-513 | the table never maps to a negative descriptor |
| `SpawnFds.SlotsHold` | abi/src/yurt_spawn.c:414-436 | the slots the actions lead to hold the folded table |
| `PosixSpawn.DoPosixSpawn` | abi/src/yurt_spawn.c:541-641 | a record is sent exactly when there is a program, the actions resolve and the request fits 64 KiB, and it encodes that request; on all paths the parent's descriptors are as before the call; what the native host reads from it is the program, the whole argument vector, the environment, and the path of the last chdir, or none when there is no chdir or that path is empty |
| `PosixSpawn.SendRequest` | abi/src/yurt_spawn.c:574-602 | from resolved stdio and slots the record is built exactly when it fits 64 KiB, and it encodes the request whose stdio, working directory, inherited list and mapping list the actions mean |
| `PosixSpawn.ResolveChdir` | abi/src/yurt_spawn.c:517-524 | the loop finds the last chdir |
| `PosixSpawn.LastChdir` | abi/src/yurt_spawn.c:517-524 | the path of the chdir after which no other comes, or there is none |
| `PosixSpawn.RequestSendable` | abi/src/yurt_spawn.c:541-602 | the descriptors of every request are 32-bit integers and its lists have countable length |
| `PosixSpawn.DescriptorsReachHost` | packages/runtime-wasmtime/src/wasm/native_abi.rs:62-115 | the native host accepts the record of a call with a program name and no empty environment name, and reads from it the child table that its file actions mean, exactly for descriptors below 2048 or touched |
| `PosixSpawn.CallReachesHost` | packages/runtime-wasmtime/src/wasm/native_abi.rs:62-115 | program, argument vector, environment and last chdir of a call are what the native host reads from every record of it that it accepts |
| `PosixSpawn.PosixFoldIs` | abi/src/yurt_spawn.c:457-513 | on a child that starts with the parent's open descriptors POSIX performs the actions, to the same table, exactly when the code does and no dup2 and no close takes a number that is no descriptor of the child |
| `PosixSpawn.ChildGetsPosix` | abi/src/yurt_spawn.c:353-380 | what the child gets, of all descriptors, differs from POSIX exactly for those the parent opened for an action and no action names, below 2048, and for the parent's own that no action names, from 2048 on |
| `PosixSpawn.MeansPosixExactlyWhen` | abi/src/yurt_spawn.c:541-641 | so the request means what POSIX says exactly when there is no such dup2 or close and no such descriptor |
| `PosixSpawn.OpenLeaks` | abi/src/yurt_spawn.c:467-480 | an open for one descriptor answered with any other number below 2048 hands that number to the child too, which is not what POSIX says |
| `PosixSpawn.DupTakesStray` | abi/src/yurt_spawn.c:498-506 | a dup2 from any number the parent does not have open is sent, which is not what POSIX says |
| `PosixSpawn.CloseTakesStray` | abi/src/yurt_spawn.c:489-497 | so is a close of such a number |
| `PosixSpawn.HighIsMissed` | abi/src/yurt_spawn.c:353-380 | without actions a parent's descriptor from 2048 on does not reach the child, which is not what POSIX says |
| `PosixSpawn.LastChdirWins` | abi/src/yurt_spawn.c:515-524 | in every tree of directories sending the last chdir leads where all of them in order do when it is absolute or the only one |
| `PosixSpawn.LastChdirExactlyWhen` | abi/src/yurt_spawn.c:515-524 | and only then, where directories are named by the paths to them |
| `SpawnRecord.RecordBuilder.Align4` | abi/src/yurt_spawn.c:242-248 | pads to the next word without touching what was written; it always succeeds here because the capacity is a multiple of four |
| `SpawnRecord.RecordBuilder.Append` | abi/src/yurt_spawn.c:250-258 | fails exactly when the data does not fit; otherwise it stands word-aligned after everything written, which is unchanged |
| `SpawnRecord.RecordBuilder.Patch` | abi/src/yurt_spawn.c:301-302 | storing a word changes that field and no other region |
| `SpawnRecord.RecordBuilder.PutSpan` | abi/src/yurt_spawn.c:260-274 | an empty string is recorded as absent, any other by a span that describes it |
| `SpawnRecord.RecordBuilder.PutString` | abi/src/yurt_spawn.c:276-284 | an empty string too is recorded by a span into the record |
| `SpawnRecord.RecordBuilder.FillStrings` | abi/src/yurt_spawn.c:303-305 | each reserved slot describes its string although the strings are appended behind the vector |
| `SpawnRecord.RecordBuilder.PutStringVec` | abi/src/yurt_spawn.c:286-307 | vector and strings fit exactly when the computed length does, and the header then describes all of them |
| `SpawnRecord.RecordBuilder.PutWords` | abi/src/yurt_spawn.c:382-404 | the same for a vector of words |
| `SpawnRecord.LaidAppend` | abi/src/yurt_spawn.c:250-258 | regions stay aligned, in bounds and disjoint after an append |
| `SpawnRecord.LaidReserve` | abi/src/yurt_spawn.c:295-300 | and after reserving a zeroed vector |
| `SpawnRecord.LaidPatch` | abi/src/yurt_spawn.c:301-302 | and after a store into a field |
| `SpawnRequest.FirstEquals` | abi/src/yurt_spawn.c:330-333 | an entry is split at its first equals sign |
| `SpawnRequest.EnvEntry` | abi/src/yurt_spawn.c:309-344 | an entry gives a pair exactly when it has an equals sign; the pair joins back to the entry and its name has none |
| `SpawnRequest.EnvAppend` | abi/src/yurt_spawn.c:309-344 | entries are taken one by one, in order |
| `SpawnRequest.FieldsStep` | abi/src/yurt_spawn.c:583-602 | writing one field of the record keeps all the others readable |
| `SpawnRequest.PutField` | abi/src/yurt_spawn.c:594-601 | each field is written exactly when it still fits 64 KiB |
| `SpawnRequest.BuildRecord` | abi/src/yurt_spawn.c:583-602 | a record is built exactly when its computed length fits 64 KiB; it then has that length and encodes the request in aligned, disjoint, in-bounds regions |
| `SpawnRequest.LengthIsSize` | abi/src/yurt_spawn.c:242-307 | the length that has to fit 64 KiB is that of the fixed part, the strings and the entries of the vectors, with up to three bytes of padding before each piece |
| `SpawnDecode.ReadHostArgs` | packages/kernel-host-interface-js/mod.ts:1836-1850 | the loop over the argument spans returns the arguments or the error of the first bad span |
| `SpawnDecode.ReadHostRequest` | packages/kernel-host-interface-js/mod.ts:1766-1850 | the JavaScript reader with all its checks, in order |
| `SpawnDecode.ReadersAgree` | packages/kernel-host-interface-js/mod.ts:1775-1778 | the promise that the JavaScript reader decides as the native one does holds exactly this far: it accepts whatever the native one accepts, with the same program and arguments; it accepts more exactly when one of the five fields it never reads is malformed; what it rejects the native one rejects, with the same error exactly when the fault is in header, program or argv[0], or cwd and stdin text are well-formed, or the first bad one of them has the argument vector's error |
| `SpawnDecode.ErrorsCanDiffer` | packages/kernel-host-interface-js/mod.ts:1775-1778 | a 92-byte record that the JavaScript reader refuses with EOVERFLOW and the native one with EINVAL |
| `SpawnDecode.ArgsAgree` | packages/runtime-wasmtime/src/wasm/native_abi.rs:184-207 | the two argument loops return the same list or the same first error on any bytes |
| `SpawnDecode.StringsAgree` | packages/runtime-wasmtime/src/wasm/native_abi.rs:133-182 | the two span readers agree on any bytes |
| `SpawnDecode.NativeReadsBack` | packages/runtime-wasmtime/src/wasm/native_abi.rs:62-115 | the native reader returns the whole request the C library recorded exactly when the program name and every environment name are not empty, and refuses the record otherwise |
| `SpawnDecode.HostReadsBack` | packages/kernel-host-interface-js/mod.ts:1766-1850 | the JavaScript reader returns the recorded program, argv[0] and arguments, empty strings included, exactly when the program name is not empty |
| `SpawnDecode.EachFails` | packages/runtime-wasmtime/src/wasm/native_abi.rs:202-206 | in a vector the first entry that fails decides the error |
| `SpawnDecode.EnvRead` | packages/runtime-wasmtime/src/wasm/native_abi.rs:209-239 | the environment reads back unless some name is empty |
| `SpawnChain.ArgvReachesChild` | packages/kernel-host-interface-js/mod.ts:1852-1874 | from posix_spawn to the child: the kernel parses from the wire the program and the argument vector of the request, and the pending spawn hands the host that same vector |
| `ArgvWire.EncodeArgv` | packages/kernel-host-interface-js/mod.ts:1050-1063 | the two loops produce the length-prefixed list |
| `ArgvWire.DecodeArgv` | packages/kernel-host-interface-js/mod.ts:1065-1078 | the cursor loop returns the decoded list or EINVAL, never reading past the end |
| `ArgvWire.DecodeOfEncode` | packages/kernel-host-interface-js/mod.ts:1050-1078 | decoding an encoded list returns it |
| `ArgvWire.EncodeOfDecode` | packages/kernel-host-interface-js/mod.ts:1050-1078 | any accepted byte string re-encodes to itself |
| `ArgvWire.MakeSpawnWire` | packages/kernel-host-interface-js/mod.ts:1852-1874 | the SYS_SPAWN request is the path and the arguments, each behind its length |
| `ArgvWire.ParseSpawn` | packages/kernel-wasm/src/dispatch/process.rs:1380-1413 | the kernel's parse loop computes the specified reading |
| `ArgvWire.KernelIgnoresTail` | packages/kernel-wasm/src/dispatch/process.rs:1395-1413 | the kernel accepts exactly an encoded list followed by at most three stray bytes |
| `ArgvWire.HostsRefuseTail` | packages/kernel-host-interface-js/mod.ts:1065-1078 | of what the kernel accepts decodeArgv accepts the same list exactly when no byte is left over, and refuses it with EINVAL otherwise |
| `ArgvWire.KernelReadsWire` | packages/kernel-wasm/src/dispatch/process.rs:1380-1413 | the kernel reads back the path and arguments that were sent, and refuses exactly an empty path |
| `ArgvWire.DrainSpawn` | packages/kernel-wasm/src/dispatch/process.rs:1510-1539 | the head of the queue is serialised so that decoding returns it; a buffer that is too short leaves queue and buffer alone and reports the length that would do; an empty queue is ENOENT |
| `ArgvWire.DecodePendingSpawn` | packages/kernel-host-interface-js/mod.ts:1018-1048 | the decoder loop computes the specified decoding |
| `ArgvWire.PendingRoundTrip` | packages/kernel-host-interface-js/mod.ts:1018-1048 | the decoder accepts exactly the serialised pending spawns, with nothing missing and nothing left over |
| `ExitWait.StepKeepsInv` | packages/kernel-host-interface-deno/wasm-kernel-imports.ts:366-411 | every step of every interleaving of waiters, kernel calls, exits and spawns keeps the protocol invariant |
| `ExitWait.ReachableInv` | packages/kernel-host-interface-deno/wasm-kernel-imports.ts:800-820 | so in every reachable state |
| `ExitWait.RunGrows` | packages/kernel-host-interface-deno/wasm-kernel-imports.ts:366-411 | every enabled step makes a run longer by that step |
| `ExitWait.ParkedIsCurrent` | packages/kernel-host-interface-deno/wasm-kernel-imports.ts:366-411 | no lost wakeup: a parked waiter holds the current version, its target has not exited, and it is listed exactly once |
| `ExitWait.ExitReleasesAll` | packages/kernel-host-interface-deno/wasm-kernel-imports.ts:372-378 | an exit releases all waiters parked on the pid and no other waiter moves |
| `ExitWait.TriesAreBounded` | packages/kernel-host-interface-deno/wasm-kernel-imports.ts:810-820 | no spinning: a call asks the kernel at most once more than exits of its target were recorded |
| `ExitWait.VersionCountsExits` | packages/kernel-host-interface-deno/wasm-kernel-imports.ts:372-378 | the version is the number of recorded exits |
| `ExitWait.EndsAfterExit` | packages/kernel-host-interface-deno/wasm-kernel-imports.ts:810-820 | once its target has exited a call is not parked, has a step unless it ended, each own step brings it nearer its end and no other step moves it |
| `ExitWait.EndsWithinFourSteps` | packages/kernel-host-interface-deno/wasm-kernel-imports.ts:810-820 | so in every run it takes at most four more steps of its own, and after four it has ended |
| `ExitWait.AgainOnlyForAnyChild` | packages/kernel-host-interface-deno/wasm-kernel-imports.ts:800-820 | in every run only a wait for any child ends with EAGAIN; such a wait asks the kernel once, never parks, and ends so whenever the kernel answers EAGAIN |
| `ExitWait.ReapedOnce` | packages/kernel-wasm/src/dispatch/process.rs:1185-1229 | in every run a call that ends with a child got one that had exited and that it asked for, and no other call gets that child |
| `ExitWait.StatusesAgree` | packages/kernel-host-interface-deno/wasm-kernel-imports.ts:830-833 | the two hosts split a status into signal and exit code alike for every status but 192 |
| `ExitWait.ProcessHostRegistry.ProcessExitVersion` | packages/kernel-host-interface-deno/wasm-kernel-imports.ts:381-383 | a pid never seen has version 0 |
| `ExitWait.ProcessHostRegistry.WaitForProcessExit` | packages/kernel-host-interface-deno/wasm-kernel-imports.ts:384-393 | parks exactly when the version has not moved, and otherwise changes nothing |
| `ExitWait.ProcessHostRegistry.NotifyProcessExit` | packages/kernel-host-interface-deno/wasm-kernel-imports.ts:372-378 | bumps the version and resolves and forgets exactly the parked waiters |
| `ExitWait.ProcessHostRegistry.RecordExit` | packages/kernel-host-interface-deno/wasm-kernel-imports.ts:405-409 | an unknown pid notifies nobody; a known one is recorded before its waiters are resolved |
| `KvStore.UnjoinOfJoin` | packages/kernel-host-interface-js/mod.ts:805-843 | the decimal key part decodes back to its bytes, the empty key included |
| `KvStore.StorePartSelects` | packages/kernel-host-interface-js/mod.ts:824-828 | a flattened key starts with a store's part exactly when it belongs to that store |
| `KvStore.CompositeInjective` | packages/kernel-host-interface-js/mod.ts:807-810 | different stores or keys never share a flattened key |
| `KvStore.ListingIsExact` | packages/kernel-host-interface-js/mod.ts:823-842 | listed are exactly the keys of the store that start with the prefix |
| `KvStore.ListingOnce` | packages/kernel-host-interface-js/mod.ts:823-842 | each of them once |
| `KvStore.InMemoryKv.Get` | packages/kernel-host-interface-js/mod.ts:811-814 | the value of the name in the modelled map, or ENOENT |
| `KvStore.InMemoryKv.Put` | packages/kernel-host-interface-js/mod.ts:815-818 | updates that name only; a new name goes last, an old one keeps its place |
| `KvStore.InMemoryKv.Delete` | packages/kernel-host-interface-js/mod.ts:819-822 | removes that name only and keeps the order of the rest |
| `KvStore.InMemoryKv.List` | packages/kernel-host-interface-js/mod.ts:823-842 | the loop returns that listing in order of insertion |
| `KvStore.StartsWith` | packages/kernel-host-interface-js/mod.ts:832-838 | the byte loop decides the prefix relation, keys shorter than the prefix included |
| `AddrRing.AddrMap.Store` | abi/src/yurt_netdb.c:109-128 | the 32 slots refine a queue: a pair is accepted unless refused or present, and the table holds exactly the last 32 accepted |
| `AddrRing.AddrMap.LookupHost` | abi/src/yurt_netdb.c:130-138 | 0 exactly when the name is absent, otherwise the address in the lowest slot with it, the only one when names occur once |
| `AddrRing.AddrMap.LookupAddr` | abi/src/yurt_netdb.c:140-147 | the name in the lowest slot with the address, or there is none |
| `AddrRing.AddrMap.AddrForHost` | abi/src/yurt_netdb.c:416-433 | DNS is asked exactly for names that are not in the table, and localhost never is |
| `AddrRing.AddrMap.GetAddrInfo` | abi/src/yurt_netdb.c:149-174 | the address for empty, numeric, local, known and unknown names, and failure exactly for unresolved or excluded ones; the second store changes nothing for a name that fits, a longer name is stored twice |
| `AddrRing.QueueOverwrite` | abi/src/yurt_netdb.c:122-127 | overwriting at the cursor is dropping the oldest and appending |
| `AddrRing.StoreRepeats` | abi/src/yurt_netdb.c:109-128 | the table stays free of repeated pairs exactly when nothing is stored, the name fits 255 bytes, or its cut form is not in the part that stays |
| `AddrRing.LookupKeepsHostsOnce` | abi/src/yurt_netdb.c:416-433 | a name that fits never takes two slots; a longer one keeps the table in order exactly when it is numeric or known, DNS fails, or its cut form is not in the part that stays |
| `AddrRing.LookupRemembers` | abi/src/yurt_netdb.c:416-433 | a name that fits and resolves is the newest entry afterwards, only the oldest of a full table had to go, and the next lookup of it changes nothing |
| `AddrRing.RunKeepsHostsOnce` | abi/src/yurt_netdb.c:416-433 | so after any sequence of lookups and address-info calls for names that fit every name has at most one slot |
| `AddrRing.LongNameTwice` | abi/src/yurt_netdb.c:312 | one resolution of any name over 255 bytes leaves its pair in the table twice |
| `DirPaging.Readdir` | packages/kernel-host-interface-js/wasi_shim.ts:413-464 | the call writes the longest page from the cookie on and its length; nothing else in memory changes; a listing under four bytes is EINVAL; only the page has to lie in memory |
| `DirPaging.ListedIsSerialised` | packages/kernel-wasm/src/dispatch/fs.rs:734-765 | a listing as the kernel packs it, the count and for each entry length, type and name, is read as the entries it was packed from |
| `DirPaging.PageIsLongest` | packages/kernel-host-interface-js/wasi_shim.ts:443-460 | a page fits and the next entry would not |
| `DirPaging.FillIsPage` | packages/kernel-host-interface-js/wasi_shim.ts:443-460 | the loop over the raw listing, with its skip and its early exits, writes exactly that page |
| `DirPaging.SeenIsPrefix` | packages/kernel-host-interface-js/wasi_shim.ts:413-464 | paging stops only at the end or before an entry larger than the buffer |
| `DirPaging.PagingIsComplete` | packages/kernel-host-interface-js/wasi_shim.ts:413-464 | the pages that follow one another from cookie to cookie are the whole listing exactly when the buffer holds the largest entry |
| `DirPaging.ClientReadsPage` | packages/kernel-host-interface-js/wasi_shim.ts:450-462 | reading the buffer returns the page with the cookies to resume from, the last being the index after the last entry; cookie and a zero inode stand as 64-bit words |
| `DirPaging.ReadWholeDirectory` | packages/kernel-host-interface-js/wasi_shim.ts:413-464 | a client loop that reads entries and the last cookie back from memory and resumes until an empty page sees every entry once and in order exactly when the buffer holds the largest; of a listing the kernel made of some entries it returns exactly these, types and names, under the same condition |
| `DirPaging.ShortPageEndsEarly` | packages/kernel-host-interface-js/wasi_shim.ts:443-462 | a client that takes a page shorter than its buffer for the last sees everything exactly when there is nothing to see, or its buffer has room and entries end at every multiple of its size short of their whole length |
| `FetchRecord.EncodeResponse` | packages/kernel-host-interface-js/mod.ts:4169-4231 | offsets from one loop and bytes from others give the record whose header, pair table, strings, body and error tile it |
| `FetchRecord.LayOut` | packages/kernel-host-interface-js/mod.ts:4178-4195 | the first loop computes for each header where its key and value will stand |
| `FetchRecord.PutTable` | packages/kernel-host-interface-js/mod.ts:4215-4222 | the pair table is written as planned |
| `FetchRecord.PutStrings` | packages/kernel-host-interface-js/mod.ts:4223-4227 | the string loop with its own cursor writes the strings without gaps |
| `FetchRecord.ResponseReadsBack` | packages/kernel-host-interface-js/mod.ts:4110-4119 | size, version, status, count, body and error read back through the stored offsets and lengths |
| `FetchRecord.PairReadsBack` | packages/kernel-host-interface-js/mod.ts:4110-4119 | every key and every value reads back through its row |
| `Iovecs.FdRead` | packages/kernel-host-interface-js/wasi_shim.ts:152-189 | nothing but the filled bytes and the count cell changes; for disjoint buffers apart from that cell, gathering them yields the response first exactly when it is no longer than they are; buffers behind the filled ones may lie anywhere |
| `Iovecs.GatherAfterScatter` | packages/kernel-host-interface-js/wasi_shim.ts:127-189 | gathering after scattering yields the data first exactly when the buffers hold it |
| `Iovecs.ScatterFrame` | packages/kernel-host-interface-js/wasi_shim.ts:176-186 | memory outside the filled bytes is unchanged |
| `Iovecs.ScatterResponse` | packages/kernel-host-interface-js/wasi_shim.ts:176-187 | the scatter loop computes the specified memory, touching only what the response fills |
| `Iovecs.GatherPayload` | packages/kernel-host-interface-js/wasi_shim.ts:136-142 | the gather loop computes the concatenation of the buffers |
| `Iovecs.ReadTable` | packages/kernel-host-interface-js/wasi_shim.ts:162-169 | the table loop reads the buffers and adds up their room |
| `Iovecs.TableReadsBack` | packages/kernel-host-interface-js/wasi_shim.ts:162-169 | the host reads the table of addresses and lengths that the guest wrote |
| `Iovecs.OneBuffer` | packages/kernel-host-interface-js/wasi_shim.ts:176-187 | data that fits one buffer stands at its start and the rest of memory is as before |
| `Iovecs.ApartMeans` | packages/kernel-host-interface-js/wasi_shim.ts:152-189 | the buffers the statements speak of have no address in common |

## Left out

- Threads and guest fork in the spawn pump, and engines without a drain callback.
- Drain errors in the spawn pump: a pending spawn larger than the kernel's scratch buffer makes the host throw; the pump model drains queue entries as values.
- SpawnPump.CachedProcessEngine.RunStart: takes a root process whose live children are all queued, because a blocking wait on a live child that is neither queued nor on the stack would repeat for ever (`PumpState.WaitWouldRepeat`).
- Guest programs are finite trees: a guest that computes forever or waits in an unbounded loop is outside the model.
- Compilation, instantiation, missing imports and argument passing into guest memory; a guest without `_start` exits with 0.
- Process attributes inherited by a spawn (credentials, limits, signal dispositions, descriptor references), path lookup and SIGCHLD in the kernel.
- Signals: the delivery loop re-enters guest code, so it is a step machine over values and not one method; leaving a handler by longjmp, SA flags other than the handler, alarm timers and `sigaction` argument checks are left out.
- Fnmatch: character classes, equivalence classes and collating symbols, which the code reads as the characters they are written with; locale-dependent case folding; characters are the bytes of the C locale.
- UTF-8: strings are byte strings, so the native reader's refusal of malformed UTF-8 and the JavaScript reader's lossy decoding are not modelled.
- A non-null argument vector whose first entry is null, which the C library reads past; a null vector is modelled.
- PosixSpawn.DoPosixSpawn: memory exhaustion and the errno values returned; `WellTyped` bounds list lengths by the 32-bit address space.
- PosixSpawn.LastChdir: a chdir that fails, and the paths of open actions, which the code opens from the parent's directory before any chdir.
- Close-on-exec flags of descriptors, and descriptors opened or closed by other threads during a spawn.
- SpawnDecode.NativeReadsBack: argument, environment and descriptor counts are below 2^32, which a 32-bit address space enforces.
- ExitWait: the thread registry, whose join loop is the same protocol with a synchronous call, and its unregistration, which resets versions; WNOHANG in the Deno loop, which the source does not test.
- Exits that reach the kernel without going through the registry.
- KvStore: the browser-backed store and value copying.
- AddrRing: whether a name is a numeric address and what DNS answers are inputs; name reports of `getnameinfo`.
- DirPaging: pages that reach outside guest memory, kernel errors, and listings that do not fit the 64 KiB response.
- FetchRecord.EncodeResponse: records of 4 GiB and more, whose offsets would wrap.
- Iovecs: filled buffers outside guest memory, which raise a host exception.
- Other system-call shims, file systems, sockets and host adapters: thin forwarding or I/O.
