# Sandlock in Dafny

A Dafny 4.11 model of the parts of sandlock, a Linux process sandbox, that compile, encode,
account for something or run a protocol against the kernel, with proofs of what they are for.
`dafny verify dfyconfig.toml` checks the whole project.

| files | models |
|---|---|
| `Bpf`, `ArgFilters`, `FilterAssembly` | the seccomp argument filter and the assembler around it, as a compiler to classic BPF |
| `MemoryLedger` | the sandbox-wide memory total beside per-address-space charges |
| `CreationTracking` | the ptrace protocol that registers a child before it runs |
| `ExecFreeze` | freezing every task that could rewrite argv before an execve |
| `VdsoEncoders`, `VdsoMachine`, `VdsoMemory`, `VdsoX86`, `VdsoArm`, `VdsoRiscv`, `VdsoPatch` | the vDSO code generator: encoders, the time-offset stubs run on small machine models, and their placement |
| `HardLinks` | hard-link resolution when an image is unpacked |
| `Base64`, `QueryInjection` | the credential codecs and the query rewrite |
| `GoProcess` | the Go binding's process handle under concurrent callers |
| `Getdents` | sorted directory listings served in pages |
| `HttpRules` | path normalisation, rule parsing and the access check |
| `LearnPaths` | path collapse and subsumption of the learn command |
| `PolicyGrants` | grants and restricts of the dynamic policy |
| `CloseFds` | closing the gaps between kept descriptors |
| `Prelude`, `Bits`, `LittleEndian`, `Buffers`, `Splitting` | shared types and lemmas |

Code that changes state step by step is a class or a method with loops, proved equal to a
specification function; pure code is functions; protocols are transition systems whose runs
are arbitrary interleavings. Words and addresses are numbers with their wrap-around written
out; an OR of disjoint fields is a sum (`VdsoMemory.OrDisjoint`).

## What turned out not to hold

Each of these has a lemma that shows the failure and one with the condition, exact unless said
otherwise under "Left out".

- The assembler accepts filters of up to 4096 instructions, but jump distances are cast to
  eight bits: the filter is right on all inputs exactly up to 258 instructions
  (`FilterAssembly.LongFilterMissesKill`, `AssembledCorrectIff`). The source warns of this in a comment.
- A child whose parent is killed in its fork stop is neither registered nor killed, and runs
  once the tracing thread ends (`CreationTracking.TracerExitSafeIff`, `UnreadChildCanRun`).
- The process index can hold a thread beside its group leader; the freeze then lists the
  group twice, is refused its second seize, and fails (`ExecFreeze.WillingFreezeIff`,
  `TrackedThreadDefeatsFreeze`).
- `normalize_path` pushes each byte as a character, so it is not idempotent when a non-ASCII
  segment survives, nor when decoding uncovers a new escape (`HttpRules.AccentNotIdempotent`,
  `EscapeNotIdempotent`, `IdempotentIff`, `FixedIff`). Rules with such paths, or with a path
  that ends in a blank, do not survive being written to a profile; all others do (`ReparseIff`).
- The unpack tests whether a joined path starts with the root, component by component. An
  absolute path elsewhere fails the test, and a link to one is skipped in silence when another link is
  made, or fails the unpack when there is no other (`HardLinks.AbsoluteLinkSkipped`). A path
  such as "../x" passes it and leads out. What is created and linked stays in the root if no
  entry acted on climbs above it, and on success only then (`UnpackRootfs`, `DotDotEntry`,
  `DotDotLink`).
- The link loop need not end: two links of one path, one to a file and one to nothing, keep
  it going (`HardLinks.RivalsNeverEnd`). It ends when no two links have the same path (`LinksApartEnds`).
- Exit releases a charge and unregisters the entry in two steps. A notification that books
  bytes in between, or later against an entry its handler still holds, leaves them in the
  total until that entry is touched again (`MemoryLedger.LateMmapLoses`, `LossStays`, `LateExitBalancedIff`,
  `PunctualExitsBalance`).
- A directory entry whose name is longer than 255 bytes once converted is not listed
  (`Getdents.ShownIff`, `ListingCompleteIff`).
- A restrict may raise a limit above the ceiling (`PolicyGrants.RestrictAboveCeiling`,
  `MemoryWithinCeilingIff`, `NetworkWithinCeilingIff`, `ProcessesWithinCeilingIff`).

## Assumptions about the environment

- Unpack: paths are read into components as the standard library does, so "." survives only at
  the head of a relative path; every component but the last of a path is a plain directory, or is
  made one, so ".." leaves the directory just entered.
- Verbs: upper-casing maps every character to characters that are their own upper case, makes
  no blank of anything else, and is the usual one on ASCII (`HttpRules.Uppercases`).
- Ledger: limits below 2^64 - 1, and no measured floor overflows the total (`FloorFits`).
- Creation tracking: detaching takes effect; waiting on or reading from a tracee fails only
  once it is gone; the wake signal is seen as a stop only after a call that made no child; a
  trace is dropped only between preparing and answering.
- Freeze: detaching takes effect and an attached task does not exit while it is held; running
  out of polls is the deadline. That the freeze stops every writer of argv needs more: a task
  seen in state D is left alone, and is harmless only if it stays there until the answer is sent.
- Stubs: the kernel answers anything, but leaves the stub's code and, on x86-64, its stack
  words alone; the time buffer overlaps neither. On riscv64 the clock id arrives
  sign-extended, as the calling convention has it.
- Placement: every symbol is at least four bytes long; jumps stand whole when no two entries
  are closer than four bytes.
- Go handle: the finalizer starts only when no call is in progress, and none begins after it.
- Directory pages: names are those after the lossy conversion to text and hold no NUL byte;
  every buffer holds any record.

## Model

| member | source | states |
|---|---|---|
| `ArgFilters.ArgFilters` | crates/sandlock-core/src/seccomp_plan.rs:499-657 | the pushing code, with its computed skip counts, emits a program that on every call refuses exactly clones with a namespace bit, the listed ioctl and prctl commands, and internet sockets that are raw, or datagram when no network rule is present; allows exactly the non-blocking waits among the rest; and leaves every other call undecided |
| `ArgFilters.EmitCmds` | crates/sandlock-core/src/seccomp_plan.rs:522-563 | the ioctl and prctl loops append one test-and-refuse pair per command behind a guard whose skip count jumps the whole block |
| `ArgFilters.EmitSocket` | crates/sandlock-core/src/seccomp_plan.rs:564-626 | the socket loop appends the domain and type tests with shrinking forward distances, and nothing when no type is blocked |
| `ArgFilters.EmitWait` | crates/sandlock-core/src/seccomp_plan.rs:627-655 | the wait blocks append the mask test that lets a non-blocking wait through |
| `ArgFilters.MaskBlockMeaning` | crates/sandlock-core/src/seccomp_plan.rs:509-520 | a mask block returns its verdict exactly for its syscall with a listed bit set, and otherwise falls through with the last word it loaded, number or argument, in the accumulator |
| `ArgFilters.CmdBlockMeaning` | crates/sandlock-core/src/seccomp_plan.rs:522-563 | for any list whose skip count fits a byte, the block refuses exactly the listed commands of its syscall (induction over the list) |
| `ArgFilters.SocketBlockMeaning` | crates/sandlock-core/src/seccomp_plan.rs:564-626 | for any type list that fits, the block refuses exactly AF_INET and AF_INET6 sockets whose masked type is listed |
| `ArgFilters.ArgProgramMeaning` | crates/sandlock-core/src/seccomp_plan.rs:499-657 | on every syscall number, argument tuple and starting accumulator the whole program refuses exactly the denied calls, allows exactly the non-blocking waits among the rest, and otherwise runs off its end; it never leaves the program |
| `ArgFilters.ShippedEnforces` | crates/sandlock-core/src/seccomp_plan.rs:499-657 | the program for the shipped lists and the resolved socket types has that meaning, stated on the bits of the arguments and on literal numbers, without the program's own tables |
| `FilterAssembly.AssembleFilter` | crates/sandlock-core/src/seccomp/bpf.rs:58-141 | refuses exactly an overlap of the two lists or more than 4096 instructions, reporting their number, and otherwise emits the specified layout |
| `FilterAssembly.EmitTable` | crates/sandlock-core/src/seccomp/bpf.rs:113-131 | the notification and deny loops emit one jump per number to their common return |
| `FilterAssembly.TableRuns` | crates/sandlock-core/src/seccomp/bpf.rs:113-131 | running a jump table reaches the return for a listed number and the code behind the table for any other |
| `FilterAssembly.AssembledMeaning` | crates/sandlock-core/src/seccomp/bpf.rs:58-141 | a filter of at most 258 instructions kills foreign architectures, then gives the argument verdict, notification, refusal or allowance in that order |
| `FilterAssembly.InstalledFilterDecides` | crates/sandlock-core/src/seccomp/bpf.rs:58-141 | with the shipped argument filter and at most 258 instructions every call gets its return word: foreign calls are killed, refused arguments fail with EPERM, polling waits pass, then notification, refusal or allowance by the two lists |
| `FilterAssembly.NeverKills` | crates/sandlock-core/src/seccomp/bpf.rs:101-109 | entered past the architecture check, a filter of any length never returns KILL, because truncation only shortens jumps |
| `FilterAssembly.LongFilterMissesKill` | crates/sandlock-core/src/seccomp/bpf.rs:101-109 | past 258 instructions a foreign architecture is not killed: the distance is truncated to eight bits |
| `FilterAssembly.AssembledCorrectIff` | crates/sandlock-core/src/seccomp/bpf.rs:58-141 | the filter decides the policy on every input if and only if it has at most 258 instructions, although only more than 4096 are refused |
| `FilterAssembly.SandboxFilterCorrectIff` | crates/sandlock-core/src/seccomp/bpf.rs:58-141 | with the shipped argument filter, correctness on all inputs holds if and only if the lists and blocked socket types number at most 192 together |
| `Bpf.ExecSeq` | crates/sandlock-core/src/sys/structs.rs:151-194 | running two blocks in sequence is running the second from where the first runs off its end |
| `Bpf.ContainedNeverFaults` | crates/sandlock-core/src/seccomp/bpf.rs:32-39 | a block whose jumps stay inside it returns or runs off its end on every input |
| `Bpf.AndBits` | crates/sandlock-core/src/seccomp_plan.rs:509-520 | the machine's AND has exactly the bits both words have |
| `Bpf.AndNonZeroIff` | crates/sandlock-core/src/seccomp_plan.rs:509-520 | a mask test succeeds if and only if word and mask share a bit |
| `Bpf.AndLowByte` | crates/sandlock-core/src/seccomp_plan.rs:599-614 | masking a socket type with 0xFF keeps its low byte |
| `MemoryLedger.Accounting.ChargeBytes` | crates/sandlock-core/src/resource.rs:609-615 | adds to the total, the peak and the space, saturating |
| `MemoryLedger.Accounting.CreditBytes` | crates/sandlock-core/src/resource.rs:620-629 | refunds at most what the space owes |
| `MemoryLedger.Accounting.ReleaseCharge` | crates/sandlock-core/src/resource.rs:603-606 | takes the whole charge of a space off the total |
| `MemoryLedger.Accounting.ReconcileFloor` | crates/sandlock-core/src/resource.rs:652-661 | raises the books of a space to a larger measured footprint and leaves a smaller one alone |
| `MemoryLedger.Accounting.OnMemory` | crates/sandlock-core/src/resource.rs:666-777 | one mmap, munmap, brk, mremap or shmget notification is the specified step, whose amounts MemoryMoves and UntrackedMoves give |
| `MemoryLedger.Accounting.OnBrk` | crates/sandlock-core/src/resource.rs:731-752 | seeds the base, charges growth or kills, credits shrinkage, and moves the base |
| `MemoryLedger.Accounting.OnExec` | crates/sandlock-core/src/resource.rs:583-598 | an exec gives back the charge and forgets the break |
| `MemoryLedger.Accounting.Unregister` | crates/sandlock-core/src/seccomp/state.rs:376-385 | takes the entry out of the index and leaves the total alone, whatever the entry holds |
| `MemoryLedger.Accounting.OnExit` | crates/sandlock-core/src/seccomp/notif.rs:2538-2547 | cleanup of a task with no notification handled in between gives back its charge and drops it |
| `MemoryLedger.HandleMemoryKeeps` | crates/sandlock-core/src/resource.rs:666-777 | total equals the sum of charges after the step, peak is not below it, no other space moves, and an allocation that continues leaves the total within the limit in force |
| `MemoryLedger.MemoryMoves` | crates/sandlock-core/src/resource.rs:652-777 | one notification in numbers, for every event of a tracked task: the charge is first raised to the measured footprint; a request is refused if and only if the total so corrected and the request pass the limit; otherwise charge and total move by the request, the charge not below zero; the peak is the largest total on the way; the break moves only when granted |
| `MemoryLedger.UntrackedMoves` | crates/sandlock-core/src/resource.rs:609-777 | a task without an entry moves only the total, not below zero, and is refused by the same guard |
| `MemoryLedger.AnonymousIff` | crates/sandlock-core/src/resource.rs:720-720 | a mapping is booked as anonymous if and only if bit 5 of its flags is set |
| `MemoryLedger.HandleExecKeeps` | crates/sandlock-core/src/resource.rs:583-598 | an exec keeps the books balanced and touches only its own space |
| `MemoryLedger.HandleExitKeeps` | crates/sandlock-core/src/seccomp/notif.rs:2538-2547 | such an exit keeps the books balanced and removes exactly the charge of that space |
| `MemoryLedger.ExitAtOnce` | crates/sandlock-core/src/seccomp/notif.rs:2538-2547 | release and unregister as two steps with nothing in between are that exit |
| `MemoryLedger.ExitsConserve` | crates/sandlock-core/src/seccomp/notif.rs:2538-2547 | with exits in two steps and handlers free to book in between and after, in every run the total is the charges of listed entries plus those of dropped ones |
| `MemoryLedger.ListedBalancedIff` | crates/sandlock-core/src/seccomp/notif.rs:2538-2547 | the listed books balance if and only if no dropped entry holds a charge |
| `MemoryLedger.PunctualExitsBalance` | crates/sandlock-core/src/seccomp/notif.rs:2538-2547 | the listed books balance after every run in which no notification of a task is handled after its release |
| `MemoryLedger.LateExitBalancedIff` | crates/sandlock-core/src/seccomp/notif.rs:2538-2547 | a notification handled between release and unregister leaves the listed books balanced if and only if it books nothing: each kind's condition is on the event, the limit, the measurement and the ledger after the release |
| `MemoryLedger.LossStays` | crates/sandlock-core/src/seccomp/notif.rs:2538-2547 | what a dropped entry holds stays in the total through every run that does not touch the entry |
| `MemoryLedger.LateMmapLoses` | crates/sandlock-core/src/seccomp/notif.rs:2538-2547 | a concrete run after which nothing is listed and a page is still counted |
| `MemoryLedger.RunConserves` | crates/sandlock-core/src/resource.rs:583-777 | over every run of events by tracked tasks the total equals the sum of charges, the peak only grows, and the total is zero once no space is left |
| `MemoryLedger.PeakIsHighest` | crates/sandlock-core/src/resource.rs:609-661 | after every run the recorded peak is the largest total there has been |
| `MemoryLedger.ChargeIsReflectedSum` | crates/sandlock-core/src/resource.rs:609-777 | in every run, whatever other spaces do, the charge of a space that is neither measured larger nor reset is the sum of its granted requests above the lowest that sum has been |
| `MemoryLedger.UntrackedBalancedIff` | crates/sandlock-core/src/resource.rs:609-629 | an event of an untracked task keeps the books balanced if and only if it moves no bytes: each kind's condition is on the event, the limit and the state before it |
| `MemoryLedger.BrkChargeIsReflectedWalk` | crates/sandlock-core/src/resource.rs:617-752 | in every run where a space only moves its break after exec, its charge is the current break minus the lowest break seen, whatever other spaces do |
| `CreationTracking.StepKeepsInv` | crates/sandlock-core/src/resource.rs:192-540 | every step of handler, worker, watchdog and kernel keeps the protocol invariant |
| `CreationTracking.RunKeepsInv` | crates/sandlock-core/src/resource.rs:192-540 | the invariant holds after every interleaving over any number of sessions |
| `CreationTracking.RegisteredBeforeRunning` | crates/sandlock-core/src/resource.rs:406-540 | in every interleaving a child that has run user code is in the process index, except one whose parent was killed before its birth was read and whose tracing thread has ended |
| `CreationTracking.TracerExitSafeIff` | crates/sandlock-core/src/resource.rs:406-498 | the end of the tracing thread keeps that guarantee if and only if no birth event was left unread |
| `CreationTracking.UnreadChildCanRun` | crates/sandlock-core/src/resource.rs:406-498 | a concrete interleaving in which the excepted child runs unregistered |
| `CreationTracking.OneCommand` | crates/sandlock-core/src/resource.rs:210-231 | on the finish, abort and drop paths exactly one command reaches the worker |
| `CreationTracking.WorkerEndsDetached` | crates/sandlock-core/src/resource.rs:305-345 | a finished worker has detached the caller, and its child is registered and released, killed, or left stopped with its birth unread; which of them is settled by AcceptedChildRuns, RefusedChildDies and OnlyRefusedDie |
| `CreationTracking.AcceptedChildRuns` | crates/sandlock-core/src/resource.rs:475-498 | from every reachable state in which the child's pid has been read, an accepted registration is followed by its release, and the worker ends with the child registered and running and everyone else as before |
| `CreationTracking.RefusedChildDies` | crates/sandlock-core/src/resource.rs:475-482 | from every such state a refused registration is followed by the child's death before it ran or was registered |
| `CreationTracking.OnlyRefusedDie` | crates/sandlock-core/src/resource.rs:475-498 | in every run without a refused registration no child is killed |
| `CreationTracking.OrdinaryForkTracks` | crates/sandlock-core/src/resource.rs:269-532 | from every state between sessions an ordinary fork runs to an end with its child registered, running and counted, and nothing else changed |
| `CreationTracking.FailedForkSettles` | crates/sandlock-core/src/resource.rs:500-532 | a fork that makes no child is woken by the watchdog, its count is taken back, and no task changed |
| `CreationTracking.UnseizableRefused` | crates/sandlock-core/src/seccomp/notif.rs:2288-2300 | a caller that cannot be seized is refused its fork and the count taken back |
| `CreationTracking.InterruptedSettles` | crates/sandlock-core/src/seccomp/notif.rs:2331-2354 | a fork whose answer cannot be sent is aborted: the caller is detached, nothing is created and the count is taken back |
| `CreationTracking.DroppedSettles` | crates/sandlock-core/src/resource.rs:219-231 | a trace dropped before its answer is aborted by its destructor and the caller detached |
| `CreationTracking.KilledBeforeFork` | crates/sandlock-core/src/resource.rs:406-447 | a caller killed before its fork is seen ends the session without a child |
| `CreationTracking.KilledAtItsStop` | crates/sandlock-core/src/resource.rs:460-472 | one killed between its stop and the reading of its message is a failure, and its child stays unread |
| `CreationTracking.SignalPassesOn` | crates/sandlock-core/src/resource.rs:406-447 | a signal seen during the fork is passed on and the watch goes on as before |
| `CreationTracking.SessionCanClose` | crates/sandlock-core/src/resource.rs:192-545 | from every state of the invariant some steps that only bring the session to its end do so: no state is stuck |
| `CreationTracking.EveryRunCanClose` | crates/sandlock-core/src/resource.rs:192-545 | in particular after every run |
| `CreationTracking.CountSettles` | crates/sandlock-core/src/seccomp/notif.rs:2274-2354 | the optimistic process count survives a session exactly when a child was created |
| `ExecFreeze.Tracer.SeizeAndInterrupt` | crates/sandlock-core/src/freeze.rs:114-182 | attaches a task exactly when it is frozen or its stop is queued; every other outcome leaves nothing attached; the outcome is the one SeizeOutcomeIs reads off the kernel's answers |
| `ExecFreeze.SeizeOutcomeIs` | crates/sandlock-core/src/freeze.rs:114-182 | the four outcomes, each if and only if: error when the kernel refuses for another reason than that the task is gone or when no poll decides; frozen or pending by the first poll that decides; not needed when a call finds the task gone |
| `ExecFreeze.ReapOutcomeIs` | crates/sandlock-core/src/freeze.rs:144-181 | the polling loop's outcome is that of the first decisive poll, and an error if and only if there is none |
| `ExecFreeze.Tracer.FreezeSandbox` | crates/sandlock-core/src/freeze.rs:277-336 | the nested loops over groups and threads, with rollback, are the specified walk |
| `ExecFreeze.Tracer.FreezeGroup` | crates/sandlock-core/src/freeze.rs:297-327 | one group of the walk: classify, collect, or roll back everything frozen so far |
| `ExecFreeze.Tracer.ReapPending` | crates/sandlock-core/src/freeze.rs:342-375 | detaches every pending task except those whose polls run out |
| `ExecFreeze.ReleasedIff` | crates/sandlock-core/src/freeze.rs:342-375 | a pending task is let go if and only if some later poll finds it exited, stopped or gone |
| `ExecFreeze.Tracer.DetachEach` | crates/sandlock-core/src/freeze.rs:377-392 | detaches exactly the listed tasks |
| `ExecFreeze.Tracer.HandleExecve` | crates/sandlock-core/src/seccomp/notif.rs:2229-2366 | on every path, allowed, denied, failed or unsent, nothing stays attached beyond pending tasks whose reap timed out; the execve continues if and only if the policy allows it, the answer is sent and the freeze succeeds |
| `ExecFreeze.WalkKeeps` | crates/sandlock-core/src/freeze.rs:277-336 | a successful walk makes siblings, peers and pending a disjoint partition of what it attached; a failed one leaves attached exactly the pending tasks it hands back |
| `ExecFreeze.WalkCovers` | crates/sandlock-core/src/freeze.rs:277-336 | after success every walked task is frozen in its class, pending, gone, or was seen in state D |
| `ExecFreeze.WalkFailsIff` | crates/sandlock-core/src/freeze.rs:277-336 | the walk fails if and only if some task resists at its turn, given what is attached by then |
| `ExecFreeze.WalkLists` | crates/sandlock-core/src/freeze.rs:277-336 | a successful walk lists, in order, every task that stopped under its class and every one that parked as pending |
| `ExecFreeze.FreezeSound` | crates/sandlock-core/src/freeze.rs:277-336 | a successful freeze partitions the attached tasks, never includes the caller, and every other listed task is attached, gone, or was seen in state D |
| `ExecFreeze.WillingFreezeIff` | crates/sandlock-core/src/freeze.rs:277-336 | even when every task stops at once, the freeze succeeds if and only if no task is listed twice and none is already traced |
| `ExecFreeze.TrackedThreadDefeatsFreeze` | crates/sandlock-core/src/seccomp/state.rs:363-369 | two tracked ids that list a common task, such as a thread and its leader, make the freeze of a cooperating sandbox fail |
| `VdsoEncoders.ArmBranchLands` | crates/sandlock-core/src/vdso.rs:79-95 | an accepted `B` decodes to a branch that lands on its target modulo 2^64 |
| `VdsoEncoders.ArmBranchAcceptsIff` | crates/sandlock-core/src/vdso.rs:79-95 | acceptance is exactly reachability by some single `B` |
| `VdsoEncoders.RiscvJumpLands` | crates/sandlock-core/src/vdso.rs:298-320 | an accepted `j` decodes, from its scattered immediate, to a jump that lands on its target |
| `VdsoEncoders.RiscvJumpAcceptsIff` | crates/sandlock-core/src/vdso.rs:298-320 | acceptance is exactly reachability by some single `jal x0` |
| `VdsoRiscv.RoundTrip` | crates/sandlock-core/src/vdso.rs:325-390 | the decoder inverts every encoder of the stub generator on all registers and immediates |
| `VdsoRiscv.LiA7Loads` | crates/sandlock-core/src/vdso.rs:277-294 | for every 32-bit value, including the carry case, the emitted sequence leaves its sign extension in a7 and nothing else changes |
| `VdsoRiscv.OffsetStub` | crates/sandlock-core/src/vdso.rs:425-430 | the builder pushes every instruction and then the offset bytes |
| `VdsoRiscv.ClockGettimeStub` | crates/sandlock-core/src/vdso.rs:403-431 | every instruction of the clock_gettime stub is in its encoder's range and the built bytes are the stub that ClockStubShifts is about |
| `VdsoRiscv.GettimeofdayStub` | crates/sandlock-core/src/vdso.rs:436-461 | the same for the gettimeofday stub and DayStubShifts |
| `VdsoRiscv.ClockStubShifts` | crates/sandlock-core/src/vdso.rs:403-431 | run from memory with an arbitrary kernel answer, the stub makes one clock_gettime call with the caller's arguments, returns its result, and shifts tv_sec by the offset modulo 2^64 if and only if the clock is 0 or 5 |
| `VdsoRiscv.DayStubShifts` | crates/sandlock-core/src/vdso.rs:436-461 | the gettimeofday stub shifts tv_sec if and only if the pointer is not NULL |
| `VdsoArm.RoundTrip` | crates/sandlock-core/src/vdso.rs:112-121 | the decoder inverts the encodings, the move encoders for every register, halfword and position |
| `VdsoArm.LoadImm64Loads` | crates/sandlock-core/src/vdso.rs:122-127 | the four moves rebuild every 64-bit value and touch no other register |
| `VdsoArm.ClockEncodes` | crates/sandlock-core/src/vdso.rs:191-208 | the hexadecimal words of the clock_gettime stub are the intended instructions with the intended distances |
| `VdsoArm.DayEncodes` | crates/sandlock-core/src/vdso.rs:230-242 | the same for the gettimeofday stub |
| `VdsoArm.ClockStubShifts` | crates/sandlock-core/src/vdso.rs:191-208 | one real call, its result in x0, tv_sec shifted if and only if the low 32 bits of the clock id are 0 or 5, every other byte of memory and every register but x0 and x8 to x12 intact |
| `VdsoArm.DayStubShifts` | crates/sandlock-core/src/vdso.rs:230-242 | the gettimeofday stub shifts tv_sec if and only if the pointer is not NULL |
| `VdsoX86.ClockPlaced` | crates/sandlock-core/src/vdso.rs:165-188 | the stub's bytes decode, at their offsets, to the intended instructions and jump distances |
| `VdsoX86.DayPlaced` | crates/sandlock-core/src/vdso.rs:214-227 | the same for the gettimeofday stub |
| `VdsoX86.ClockStubShifts` | crates/sandlock-core/src/vdso.rs:165-188 | one real call with the caller's arguments, result in rax, balanced stack, return to the caller, and tv_sec shifted if and only if the low 32 bits of the clock id are 0 or 5 |
| `VdsoX86.DayStubShifts` | crates/sandlock-core/src/vdso.rs:214-227 | the gettimeofday stub shifts tv_sec if and only if the pointer is not NULL |
| `VdsoMemory.AddInPlace` | crates/sandlock-core/src/vdso.rs:185-187 | the in-place addition moves the eight bytes at the pointer by the offset modulo 2^64 and changes no other byte |
| `VdsoMemory.EmitStub` | crates/sandlock-core/src/vdso.rs:72-74 | pushing words in turn lays out their little-endian bytes |
| `VdsoMemory.OrBits` | crates/sandlock-core/src/vdso.rs:112-121 | the OR of the encoders has exactly the bits either word has |
| `VdsoPatch.ParseSymbols` | crates/sandlock-core/src/vdso.rs:53-68 | the table binds each name to its last symbol with a non-zero value |
| `VdsoPatch.TrampStart` | crates/sandlock-core/src/vdso.rs:100-109 | the trampoline area starts at the least multiple of 16 past every symbol |
| `VdsoPatch.PlanLaid` | crates/sandlock-core/src/vdso.rs:503-571 | in every run the stubs are pairwise disjoint, 4-aligned, inside the mapping and clear of every entry word, and every entry word jumps to its stub |
| `VdsoPatch.PlanComplete` | crates/sandlock-core/src/vdso.rs:503-511 | jobs are placed in order, and all that have a symbol exactly when the loop reports success |
| `VdsoPatch.PlanPacked` | crates/sandlock-core/src/vdso.rs:503-571 | stubs stand as low as their order and alignment allow, one after the other; a plan that fails stops at the first job whose stub does not fit or whose entry cannot reach it, and names no other reason |
| `VdsoPatch.LookupIsTarget` | crates/sandlock-core/src/vdso.rs:503-511 | a job's entry is its first name with a bound symbol, read off the symbol list |
| `VdsoPatch.PlaceAll` | crates/sandlock-core/src/vdso.rs:503-571 | the loop writes exactly that plan; on success all stubs and jumps stand whole and nothing else changed, on failure the targets already placed stand whole and no other entry was touched |
| `VdsoPatch.Patch` | crates/sandlock-core/src/vdso.rs:474-574 | the whole patch on a trampoline architecture, given symbols of at least four bytes: it serves exactly the jobs the symbol list has an entry for, in order, from the first multiple of 16 past every symbol, or up to the first one that does not fit; whatever was placed is sound and stands whole, and on success nothing else changed |
| `HardLinks.UnpackNodes` | crates/sandlock-core/src/image.rs:198-220 | the first pass makes every ordinary entry whose path passes the test, defers exactly the links that pass it, and logs what it created where the path leads |
| `HardLinks.Round` | crates/sandlock-core/src/image.rs:229-269 | the sweep as the code runs it, for any archive, equals its specification entry by entry |
| `HardLinks.RoundLeaves` | crates/sandlock-core/src/image.rs:229-269 | with distinct places a sweep makes only right links, drops links whose target fails the test, keeps exactly the rest, shrinks when it makes one, and when it makes none every kept link's target is missing or a directory |
| `HardLinks.UnpackRootfs` | crates/sandlock-core/src/image.rs:198-282 | for distinct places and any host: nothing is created or linked outside the root if no entry climbs out of it, and on success only then; with no link's place taken, success if and only if every link whose target passes the test leads to a file and, when there are links, one passes it; each made link names its file's inode, failure names exactly the links that lead nowhere; rounds never outnumber the links |
| `HardLinks.TracedContained` | crates/sandlock-core/src/image.rs:209-213 | what was done stays inside the root if and only if no entry acted on climbs, once no link is due |
| `HardLinks.PlainStays` | crates/sandlock-core/src/image.rs:209-213 | a path that passes the test and holds no dots stays inside the root |
| `HardLinks.NameThenUp` | crates/sandlock-core/src/image.rs:209-213 | a name followed by .. leads back to where it was |
| `HardLinks.DotDotClimbs` | crates/sandlock-core/src/image.rs:209-213 | the path ../x passes the component test and names a place beside the root |
| `HardLinks.DotDotEntry` | crates/sandlock-core/src/image.rs:198-220 | an ordinary entry ../x is created outside the root whatever else the archive holds |
| `HardLinks.DotDotLink` | crates/sandlock-core/src/image.rs:250-268 | a link to ../x is made to the host's file and the unpack succeeds |
| `HardLinks.FreshVacant` | crates/sandlock-core/src/image.rs:198-282 | below a fresh root no link's place is taken |
| `HardLinks.LinksApartEnds` | crates/sandlock-core/src/image.rs:229-279 | for any archive and host the loop ends, after at most one sweep per link due, when no two links have the same path |
| `HardLinks.RivalsNeverEnd` | crates/sandlock-core/src/image.rs:229-279 | for every archive and host with two links of one path, in either order, one to a file no link replaces and one to a place nothing fills, a link is still due after any number of sweeps |
| `HardLinks.RivalLinksNeverEnd` | crates/sandlock-core/src/image.rs:229-279 | the smallest such archive, on an empty host |
| `HardLinks.AnswerNoEscape` | crates/sandlock-core/src/image.rs:198-282 | with every target passing the test: success if and only if every link's chain ends at a file, and then every entry is there |
| `HardLinks.AbsoluteLinkSkipped` | crates/sandlock-core/src/image.rs:252-256 | a concrete archive that unpacks successfully without its link to an absolute path outside the root |
| `HardLinks.StuckNeverResolves` | crates/sandlock-core/src/image.rs:271-279 | a link left over when a sweep makes no progress has no chain to a file |
| `HardLinks.AnswerUnique` | crates/sandlock-core/src/image.rs:198-282 | the outcome is determined by the contents of the archive and the host |
| `HardLinks.TableOrderFree` | crates/sandlock-core/src/image.rs:198-282 | archives with the same entries in any order have the same contents |
| `Base64.EncodeBytes` | crates/sandlock-core/src/credential.rs:503-517 | the chunk loop computes the specified encoding |
| `Base64.RoundTrip` | crates/sandlock-core/src/credential.rs:503-517 | the decoder of section 4 of RFC 4648 recovers every byte string |
| `Base64.Shape` | crates/sandlock-core/src/credential.rs:503-517 | the output has 4 * ceil(n / 3) characters and exactly the padding n mod 3 demands, at its end |
| `Base64.ChunkNumber` | crates/sandlock-core/src/credential.rs:506-515 | three bytes and their four characters are one number, read in base 256 and in base 64 |
| `QueryInjection.UrlencodeBytes` | crates/sandlock-core/src/credential.rs:543-552 | the loop computes the specified percent-encoding |
| `QueryInjection.PercentDecodeLossy` | crates/sandlock-core/src/credential.rs:521-538 | the loop computes the specified decoding, malformed escapes kept |
| `QueryInjection.DecodeEncode` | crates/sandlock-core/src/credential.rs:521-552 | decoding inverts encoding on every byte string |
| `QueryInjection.EncodeClean` | crates/sandlock-core/src/credential.rs:543-552 | encoded text holds no separator and only unreserved bytes and escapes |
| `QueryInjection.EncodeByteIff` | crates/sandlock-core/src/credential.rs:543-552 | a byte stands for itself if and only if it is unreserved (section 2.3 of RFC 3986); every other takes a three-byte escape |
| `QueryInjection.HexValueIff` | crates/sandlock-core/src/credential.rs:527-528 | hexadecimal digits in either case, and nothing else, have their value |
| `QueryInjection.DecodeFirstPercent` | crates/sandlock-core/src/credential.rs:521-538 | the first percent sign: an escape becomes its byte, one that starts none is kept, and decoding goes on behind it |
| `QueryInjection.DecodeNoPercent` | crates/sandlock-core/src/credential.rs:521-538 | text without a percent sign is left alone |
| `QueryInjection.ItemParts` | crates/sandlock-core/src/credential.rs:307-309 | an item is its name alone, or its name, the first equals sign and its value |
| `QueryInjection.AnyTarget` | crates/sandlock-core/src/credential.rs:307-317 | finds an item whose decoded name is the parameter if there is one |
| `QueryInjection.FilterOthers` | crates/sandlock-core/src/credential.rs:326-331 | keeps exactly the non-empty items that do not decode to the parameter, in order |
| `QueryInjection.Request.SetQuery` | crates/sandlock-core/src/credential.rs:295-345 | skips exactly when add-only finds a target, fails exactly when it does not skip and the builder refuses, and otherwise replaces the query by the injected one and nothing else |
| `QueryInjection.InjectedReads` | crates/sandlock-core/src/credential.rs:295-345 | the new query splits into the old non-target items in order and one item that decodes to the parameter and the secret; no other item decodes to that name |
| `QueryInjection.InjectTwice` | crates/sandlock-core/src/credential.rs:295-345 | injecting twice equals injecting once |
| `GoProcess.StepKeepsInv` | go/sandlock_linux.go:915-1086 | every step of every goroutine keeps the mutex, ownership, handle and finalizer facts |
| `GoProcess.RunKeepsInv` | go/sandlock_linux.go:915-1086 | they hold after every interleaving |
| `GoProcess.HandleSafe` | go/sandlock_linux.go:792-1086 | under every interleaving of Wait, Close, Kill, Pause, Resume, Ports and the finalizer the native handle is freed at most once, never used after that, never in two native calls at once, and no group signal goes to a non-positive pid |
| `GoProcess.NoLeak` | go/sandlock_linux.go:915-1086 | once all calls have returned, a completed Close or a finished finalizer means the handle was freed exactly once |
| `GoProcess.NoDeadlock` | go/sandlock_linux.go:951-1086 | while a call is in progress some goroutine can move |
| `GoProcess.CallsDoTheirWork` | go/sandlock_linux.go:951-1086 | from every reachable state in which nobody holds the mutex, each call run to its end has its whole effect: a signal reaches a live group even while another goroutine waits, Wait and Close free the handle, Close behind a Wait signals instead, and calls on a dead handle do nothing |
| `GoProcess.FinalizerDoesItsWork` | go/sandlock_linux.go:915-927 | the finalizer kills a live group and frees its handle, and does nothing to one already gone |
| `Getdents.BuildDirent64` | crates/sandlock-core/src/procfs.rs:890-904 | the buffer filled field by field is the specified record; only names over 255 bytes are refused |
| `Getdents.BuildRecords` | crates/sandlock-core/src/procfs.rs:827-833 | building the records one by one, without those refused, gives the records of the listing at positions counted over all entries |
| `Getdents.RecLenFits` | crates/sandlock-core/src/procfs.rs:896-897 | record lengths are multiples of eight, hold the name and its NUL, and fit in 16 bits |
| `Getdents.SortSorts` | crates/sandlock-core/src/procfs.rs:825-825 | the stable sort orders by name and loses nothing |
| `Getdents.BeforeIff` | crates/sandlock-core/src/procfs.rs:825-825 | names are ordered by their first differing byte, and a prefix comes first |
| `Getdents.WalkRecord` | crates/sandlock-core/src/procfs.rs:890-904 | a record at the front of a buffer reads back as its inode, position, type and name |
| `Getdents.WalkRecords` | crates/sandlock-core/src/procfs.rs:827-835 | walking all records by record length recovers the whole listing |
| `Getdents.Pack` | crates/sandlock-core/src/procfs.rs:851-860 | takes the longest run of whole records that fits, from the front |
| `Getdents.FitsLongest` | crates/sandlock-core/src/procfs.rs:851-860 | the run taken fits, and one record more would not |
| `Getdents.Directories.Getdents` | crates/sandlock-core/src/procfs.rs:788-873 | one call: fill the cache, serve and drain a page, or report the end and forget the directory |
| `Getdents.PagesDrain` | crates/sandlock-core/src/procfs.rs:840-873 | with buffers that hold any record, pages deliver all remaining records once and in order before the first empty reply |
| `Getdents.ReadsWholeDirectory` | crates/sandlock-core/src/procfs.rs:788-904 | for any directory and any such sequence of calls the bytes before the first empty reply are exactly all records in name order, and walking them recovers the sorted listing |
| `Getdents.ListingCompleteIff` | crates/sandlock-core/src/procfs.rs:827-904 | the listing shows as many entries as the directory has, with the two dots, if and only if all names fit |
| `Getdents.ShownIff` | crates/sandlock-core/src/procfs.rs:806-904 | an item, the two dots included, is shown with its name, type and inode if and only if its name is at most 255 bytes |
| `Getdents.NothingElseShown` | crates/sandlock-core/src/procfs.rs:806-904 | every entry shown tells of such an item |
| `Getdents.EndStartsOver` | crates/sandlock-core/src/procfs.rs:843-847 | after the empty reply the directory is forgotten and the next call reads it anew |
| `Getdents.BigEnough` | crates/sandlock-core/src/procfs.rs:890-897 | buffers of 280 bytes hold any record |
| `Getdents.OthersKept` | crates/sandlock-core/src/procfs.rs:788-873 | a call leaves the cached pages of other open directories alone |
| `HttpRules.NormalizePath` | crates/sandlock-core/src/http.rs:75-120 | the decoding loop and the segment stack compute the specified normal form |
| `HttpRules.NormalizeIsNormal` | crates/sandlock-core/src/http.rs:75-120 | every result starts with a slash and has no empty, "." or ".." segment |
| `HttpRules.StackIsScan` | crates/sandlock-core/src/http.rs:101-112 | the segment stack equals the right-to-left reading in which each ".." cancels the nearest uncancelled name (compare section 5.2.4 of RFC 3986) |
| `HttpRules.EscapeSame` | crates/sandlock-core/src/http.rs:75-100 | writing an ASCII character as an escape does not change the normal form |
| `HttpRules.DecodeFirstPercent` | crates/sandlock-core/src/http.rs:75-100 | the first percent sign of a text: an escape is its byte, a malformed one keeps its three bytes, and one with fewer than two bytes behind it swallows what there is |
| `HttpRules.HexPairIff` | crates/sandlock-core/src/http.rs:84-90 | two bytes spell a value if and only if they are two hexadecimal digits, or a plus sign and one, as the standard library's parser has it |
| `HttpRules.Utf8CharReads` | crates/sandlock-core/src/http.rs:75-78 | every character is read back from its bytes, whose number its size decides |
| `HttpRules.IdempotentIff` | crates/sandlock-core/src/http.rs:75-120 | on paths without escapes normalising again changes nothing if and only if every segment not cancelled by a later ".." is ASCII |
| `HttpRules.FixedIff` | crates/sandlock-core/src/http.rs:75-120 | every path is left alone by normalisation if and only if it is ASCII, normal and holds no escape that decodes |
| `HttpRules.EscapedIdempotentIff` | crates/sandlock-core/src/http.rs:75-120 | for every path, escaped or not, normalising twice is normalising once if and only if every segment of the decoded path not cancelled by a later ".." is ASCII and their path holds no escape that decodes |
| `HttpRules.EscapeNotIdempotent` | crates/sandlock-core/src/http.rs:75-120 | a concrete path on which it is not: /%2541 becomes /%41, which normalising changes again |
| `HttpRules.AsciiIdempotent` | crates/sandlock-core/src/http.rs:75-120 | in particular it is idempotent on every ASCII path without escapes |
| `HttpRules.AccentNotIdempotent` | crates/sandlock-core/src/http.rs:75-120 | a concrete path on which it is not: each byte above 127 is pushed as one character and re-encoded as two |
| `HttpRules.ParsedShape` | crates/sandlock-core/src/http.rs:21-49 | for every upper-casing that obeys the Unicode law, a parsed rule has a non-empty upper-case verb without blanks, a host without slashes or a leading blank, and a normal path |
| `HttpRules.ParsesIff` | crates/sandlock-core/src/http.rs:21-31 | a text is a rule if and only if it holds two words |
| `HttpRules.RuleReads` | crates/sandlock-core/src/http.rs:21-49 | method, blank, host and path are read into the three parts of the rule |
| `HttpRules.HostAloneReads` | crates/sandlock-core/src/http.rs:42-44 | without a path a rule covers the whole host |
| `HttpRules.RulePathKeepsStar` | crates/sandlock-core/src/http.rs:33-41 | the wildcard at the end of a rule path survives normalisation |
| `HttpRules.RuleMeans` | crates/sandlock-core/src/http.rs:21-67 | from the text of a rule with a plain path to its requests: it matches if and only if method and host are a star or agree up to the case of ASCII letters, and the request's normal form is the path, or begins with it when it ends in a star |
| `HttpRules.SameFoldIff` | crates/sandlock-core/src/http.rs:54-62 | texts compare equal if and only if they agree but for the case of ASCII letters |
| `HttpRules.PathMatchIff` | crates/sandlock-core/src/http.rs:130-139 | a pattern with a final star matches what begins with the rest of it, any other only itself; a star alone or behind a slash matches everything |
| `HttpRules.StarIsPrefix` | crates/sandlock-core/src/http.rs:63-66 | on normalised paths the slash and star is no exception |
| `HttpRules.RulePathFixedIff` | crates/sandlock-core/src/http.rs:33-41 | every text is left alone when read as a rule path if and only if it is ASCII, normal and settled: nothing is decoded but a star cut behind a final percent sign, which is put back |
| `HttpRules.ReparseIff` | crates/sandlock-core/src/profile.rs:451-453 | for every such upper-casing, every parsed rule survives formatting and parsing if and only if its path is ASCII and settled and does not end in a blank |
| `HttpRules.HttpAclCheck` | crates/sandlock-core/src/http.rs:147-174 | allowed if and only if no deny rule matches and, when there are allow rules, one of them does |
| `HttpRules.DecisionsSurvive` | crates/sandlock-core/src/profile.rs:451-453 | access decisions agree before and after rules that meet that condition are written and read back |
| `LearnPaths.SubsumedIff` | crates/sandlock-cli/src/learn.rs:116-125 | walking the parents finds a listed strict ancestor exactly when there is one |
| `LearnPaths.DedupSameSubtree` | crates/sandlock-cli/src/learn.rs:116-125 | dropping subsumed paths grants exactly the same subtree |
| `LearnPaths.DedupAntichain` | crates/sandlock-cli/src/learn.rs:116-125 | no kept path is beneath another |
| `LearnPaths.CountParents` | crates/sandlock-cli/src/learn.rs:138-143 | the map counts, for every directory, the paths directly in it |
| `LearnPaths.CountIs` | crates/sandlock-cli/src/learn.rs:138-143 | the count of a directory is the number of paths directly in it |
| `LearnPaths.LongestPrefix` | crates/sandlock-cli/src/learn.rs:147-149 | the longest explicit prefix of a path, the last of equals |
| `LearnPaths.TextLenIs` | crates/sandlock-cli/src/learn.rs:147-149 | prefixes are compared by the length of the path written out |
| `LearnPaths.CollapseByThreshold` | crates/sandlock-cli/src/learn.rs:131-187 | the loop collects exactly the target of every path |
| `LearnPaths.EachPathCollapses` | crates/sandlock-cli/src/learn.rs:131-187 | each path goes to its longest explicit prefix if it has one, else to its directory if that is crowded, else nowhere, and what it goes to is still granted once subsumed paths are dropped |
| `LearnPaths.CollapseThenDedup` | crates/sandlock-cli/src/learn.rs:116-187 | an antichain that covers every input, in which a sensitive directory is an input or an explicit prefix and any other new directory has at least n of the paths directly in it |
| `PolicyGrants.PolicyContext.DoGrantNetwork` | crates/sandlock-core/src/policy_fn.rs:201-210 | adds exactly the addresses within the ceiling, or fails without effect |
| `PolicyGrants.PolicyContext.DoGrantMaxMemory` | crates/sandlock-core/src/policy_fn.rs:213-218 | sets the limit capped by the ceiling, or fails without effect |
| `PolicyGrants.PolicyContext.DoGrantMaxProcesses` | crates/sandlock-core/src/policy_fn.rs:221-226 | the same for processes |
| `PolicyGrants.PolicyContext.DoRestrictNetwork` | crates/sandlock-core/src/policy_fn.rs:231-235 | replaces the set and closes the field for good |
| `PolicyGrants.PolicyContext.DoRestrictMaxMemory` | crates/sandlock-core/src/policy_fn.rs:238-242 | replaces the limit and closes the field for good |
| `PolicyGrants.PolicyContext.DoRestrictMaxProcesses` | crates/sandlock-core/src/policy_fn.rs:245-249 | the same for processes |
| `PolicyGrants.NetworkAfter` | crates/sandlock-core/src/policy_fn.rs:201-249 | after every run the address set is the argument of the last restrict, or else the initial set plus what was asked for within the ceiling |
| `PolicyGrants.MemoryAfter` | crates/sandlock-core/src/policy_fn.rs:201-249 | after every run the memory limit is the argument of the last restrict, or else the last grant capped by the ceiling, or else the initial limit |
| `PolicyGrants.ProcessesAfter` | crates/sandlock-core/src/policy_fn.rs:201-249 | the same for processes |
| `PolicyGrants.GrantRefusedIff` | crates/sandlock-core/src/policy_fn.rs:282-288 | a grant is refused if and only if the run restricted its field, and then changes nothing |
| `PolicyGrants.MemoryWithinCeilingIff` | crates/sandlock-core/src/policy_fn.rs:238-242 | a restrict is not capped: the limit stays within the ceiling if and only if the last restrict does |
| `PolicyGrants.NetworkWithinCeilingIff` | crates/sandlock-core/src/policy_fn.rs:231-235 | the live addresses stay within the ceiling if and only if the last restrict names only addresses of it |
| `PolicyGrants.ProcessesWithinCeilingIff` | crates/sandlock-core/src/policy_fn.rs:245-249 | the process limit stays within the ceiling if and only if the last restrict does |
| `PolicyGrants.RestrictAboveCeiling` | crates/sandlock-core/src/policy_fn.rs:238-242 | a concrete run that leaves the limit above the ceiling |
| `CloseFds.KeptAbove` | crates/sandlock-core/src/context.rs:151-154 | exactly the kept descriptors above the threshold, ascending without duplicates |
| `CloseFds.CloseFdsAbove` | crates/sandlock-core/src/context.rs:151-167 | the spans close exactly the descriptors above the threshold that are not kept, with the 32-bit wrap of the cursor |

## Left out

- `PortMap`, Landlock masks, protection resolution, `confine_child`, builders, the command line, serialisation and the other bindings: wide, but each member is easy.
- The ptrace, waitpid, pidfd and /proc calls themselves: they are the nondeterministic steps and parameters of the protocols.
- `simple_stub`, `deny_path`, per-pid overrides and `classify_path`: easy members; the sensitive tiers are a parameter of the collapse.
- x86-64 inline patching: the loop of `patch` is modelled for the trampoline architectures only.
- ArgFilters.ArgProgramMeaning: states the meaning for lists whose skip counts fit in a byte (127 commands, 249 types); longer lists do not occur in the source.
- ArgFilters.ArgFilters: the ioctl and prctl command lists are constants of the model with the source's values for one architecture; the meaning is proved for any lists.
- HardLinks.UnpackRootfs: entries name distinct places, since the loop need not end otherwise; symbolic links, missing parents and errors of unpacking an ordinary entry are not modelled.
- HardLinks.LinksApartEnds: one direction only; with two links of one path RivalsNeverEnd gives a family that never ends, and between the two it depends on which links can be made on the host at hand.
- ExecFreeze.Tracer.HandleExecve: tasks do not exit while attached, so a later exit of a held task is not a step of the model.
- CreationTracking.RegisteredBeforeRunning: time-outs of the watchdog are a step that may happen at any moment, not a duration.
- MemoryLedger.RunConserves: claimed for tracked tasks; untracked ones have their exact condition in UntrackedBalancedIff, and exits are single steps in it; ExitsConserve takes them apart.
- MemoryLedger.PunctualExitsBalance: one direction only, since a late booking may be credited back before the entry is dropped; LateExitBalancedIff is exact for one late notification.
- ExecFreeze.FreezeSound: does not say that a task seen in state D cannot run, because nothing holds it there.
- VdsoX86.ClockStubShifts: registers no stub instruction names are not part of the state, and r11 is not either.
- VdsoPatch.Patch: offsets are unbounded numbers, so a wrap of base plus offset is modelled only in the jump encoders and addresses.
- GoProcess.HandleSafe: the stdio files of a Process, and results of its calls, are not modelled; a signal to a pid already reaped but not yet marked is possible in the code and in the model.
- Getdents.ReadsWholeDirectory: buffers smaller than a record are outside its domain; a page lost to a failed write to the child is modelled but not part of the claim.
- LearnPaths.CollapseThenDedup: paths are absolute; warnings and the junk filter are not modelled.
- CloseFds.CloseFdsAbove: thresholds below -1 are outside it, since descriptors are never negative; the step past the largest descriptor number wraps, as in a release build, while a debug build panics there.
