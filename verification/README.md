# xdp-tools in Dafny

A model of the parts of xdp-tools where correctness depends on more than one function, and
proofs about them: the multi-program dispatcher protocol of libxdp, the AF_XDP rings and the
sharing of programs and umems, the PcapNG writer behind xdpdump, the packet filter of
xdp-filter with its counters, and the kernel-style data structures underneath. `dafny verify
dfyconfig.toml` checks everything.

## What is modelled

**Dispatcher protocol** (`DispatcherOrder`, `Dispatcher`, `DispatcherGenerate`,
`DispatcherProtocol`, `DispatcherSafety`, `DispatcherFold`, `DispatcherTheorems`, `DispatcherPins`,
`DispatcherAlone`, `DispatcherRuns`). Any number of processes attach and detach programs on one interface at the
same time. Each runs the steps of `xdp_program__attach_multi()` or
`xdp_program__detach_multi()`: find the attached dispatcher, read its pins, generate and load a
new dispatcher, pin it, swap it in if the old one is still attached, remove the pins that are no
longer needed, and start over when the swap lost a race. The kernel is the environment: it hands
out fresh program ids, performs conditional replacement and the pinning of a directory as single
steps, and may fail at every step. `DispatcherProtocol` is the state machine, `DispatcherSafety`
its invariant, `DispatcherFold` the balance between what was committed and what is attached,
`DispatcherTheorems` what follows for every run, `DispatcherPins` what becomes of the pins of
dispatchers that were replaced, `DispatcherAlone` what an operation does that nobody disturbs, and
`DispatcherRuns` the runs in which something one might expect does not hold.

**AF_XDP rings** (`Words`, `XskRing`, `XskRingSides`). Producer and consumer with free-running
32-bit indices, cached copies of each other's index, and the producer's cache kept one ring size
ahead. `XskRing` relates the wrapped words to unbounded counts; `XskRingSides` is the two sides
as objects over shared memory.

**Shared XDP program and umem** (`XskProgRefcount`, `XskProgHistory`, `List`, `XskUmem`). The
reference count that sockets of different processes keep on one XDP program, and the contexts,
counts and circular list of one umem.

**PcapNG** (`PcapNgFormat`, `PcapNgWriter`, `PcapNgInterface`, `PcapNgPacket`, `PcapNgDumper`,
`CaptureLog`, `Capture`). `PcapNgFormat` is a reader for sections 3.1, 3.5 and 4.1 to 4.3 of
draft-ietf-opsawg-pcapng, written independently of the writer. The writer modules fill buffers
and piece lists as the C code does; `Capture` is xdpdump's event handler on top of them, and
`CaptureLog` says what the file should contain as a function of the events alone.

**Packet filter** (`Parsing`, `FilterVerdict`, `FilterCounters`, `FilterProgram`, `FilterFrames`).
The header parsers, what a packet deserves stated as "the first check that settles the matter", the
BPF program over per-CPU rule words, and the flag edits of the command line tool. `FilterFrames`
says the verdict a second time, on frames given as header fields instead of bytes.

**Data structures** (`Hlist`, `HashTable`, `HashSpread`, `Jhash`, `FlagList`). Hash chains through
next/pprev pointers, the table over them, how its hash spreads keys, Jenkins' hash, and
comma-separated flag lists.

## Where the code does not do what one would expect

Each item names the exact condition and, where there is one, the input or run that shows it.

- `cmp_xdp_programs()` is not a consistent order on every list: programs loaded by a failed
  attempt still carry their object when the attempt is repeated. `ConsistentIffNoCrossing` says
  for which lists it is consistent. The attached programs run in order of priority and name all the
  same (`AttachedIsSorted`), but among programs of equal priority and name the order then depends on
  the order they are given in: `SortsAnyWayIffNoCrossing` says when, and
  `RetryDependsOnGivenOrder` is a pair of runs. What C itself promises of `qsort()` leaves the order
  of such a list open altogether.
- If reading pins that are there fails, they are taken for a legacy program and the attach that
  follows drops the programs that were attached (`UnreadablePinsLoseUpdates`). `NoLostUpdate` says
  that updates are lost if and only if such an attach is committed.
- If that read fails after the first program, `num_links` keeps its value although the list is
  dropped, and the loop that appends the request in `xdp_multiprog__generate()` runs past the end of
  the request (`CountLeftOverGoesAstray`). `AstrayIffCountLeftOver` says when.
- An operation can leave behind the pins of a dispatcher that was never attached, because the result
  of removing them is not looked at: after a swap that failed (`PinsCanStay`) and in the clean-up of a
  pin that failed (`FailedPinLeavesPins`). `PinsLeftIffRemovalFailed` says when.
- The pins of a dispatcher that was replaced stay if it was taken for a legacy program or its unpin
  failed. `OldPinsLeftIffKept` says that they stay for no other reason, and `PinsAtRest` which pins
  there are when all operations are over.
- A detach of everything whose last unpin fails with `-EAGAIN` starts over after its work is done, and
  reports that there is nothing to detach (`DetachReportsNothingThere`). `ResultTellsCommits` says what
  every result means.
- Losing the race for the first dispatcher of an interface ends the attach with the error of the
  kernel; it is not retried (`LostFirstAttachIsNotRetried`), although lib/libxdp/protocol.org says
  that the process starts over. The code is followed. `LostRace` says what becomes of every lost
  race.
- A socket setup that fails after attaching a program detaches it although another socket may
  have found it meanwhile (`HolderCanBeStranded`, `HarmfulFailureStrandsASocket`).
- A failed `socket()` call leaves the umem's count raised, so that the umem can no longer be
  deleted (`Umem.CreateShared`, `Umem.DeleteUmem`).
- PcapNG option lengths have 16 bits and the block length 32: `WriteShb`, `WriteIdb` and
  `WriteEpb` state exactly when the block can be read back.
- A filter program with fewer features passes over parse failures that make the full program
  abort (`AbortsDiffer`). `Specialises` says exactly when the two differ.
- xdpdump does not look whether a packet block was written. A part of a block makes the file unreadable;
  a block that is missing takes its drop count with it (`HandleSample`, `ParseFileTorn`).
- Hits that a rule gets between the two system calls of a flag edit are forgotten, exactly those
  (`Filter.SetFlags`, `RuleCountsHits`).
- `print_flags()` puts a comma in the last character of a buffer, and the terminator behind it, when
  the list is cut at that point (`TerminatorBehindBuffer`). `TerminatorFits` says when there is room.

## Model

| member | source | states |
|---|---|---|
| DispatcherOrder.CompareAntisymmetric | lib/libxdp/libxdp.c:1433-1476 | swapping the arguments of the comparison negates its result |
| DispatcherOrder.LexCompareIsDictionary | lib/libxdp/libxdp.c:1442-1444 | the name comparison is negative if and only if the first name comes first in dictionary order: it is a proper prefix, or smaller at the first place where they differ |
| DispatcherOrder.CompareMeans | lib/libxdp/libxdp.c:1433-1476 | the sign of the comparison, both ways: lower priority first, then the name, then loaded programs before others, then the smaller program, or the tag and the load time, each where nothing before it decides |
| DispatcherOrder.ConsistentIffNoCrossing | lib/libxdp/libxdp.c:1433-1476 | the comparison is transitive on a list if and only if no three entries of it mix loaded programs with and without an object across the name and id rules |
| DispatcherOrder.NormalShapesConsistent | lib/libxdp/libxdp.c:1433-1476 | on the lists of a first attempt, pinned programs and programs not loaded yet, the comparison is a total preorder |
| DispatcherOrder.RetryShapesCanCycle | lib/libxdp/libxdp.c:1433-1476 | three loaded programs that compare in a cycle |
| DispatcherOrder.InsertionSortIsQsort | lib/libxdp/libxdp.c:2724-2725 | insertion sort permutes every list into order of priority and name, and into the order of the comparison whenever that is consistent |
| DispatcherOrder.MergeSortIsQsort | lib/libxdp/libxdp.c:2724-2725 | so does the merge sort of the GNU C library |
| DispatcherOrder.CContractOrders | lib/libxdp/libxdp.c:2724-2725 | for a list without a crossing the promise of C alone gives order of priority and name |
| DispatcherOrder.SortedUpToTies | lib/libxdp/libxdp.c:2724-2725 | for such a list any two sorts, of the list given in any two orders, differ only between programs the comparison leaves tied |
| DispatcherOrder.SortsAnyWayIffNoCrossing | lib/libxdp/libxdp.c:1433-1476 | a list is put in the order of the comparison, whichever way it is given, if and only if it has no crossing |
| Dispatcher.XdpProgram.constructor | lib/libxdp/libxdp.c:1021-1037 | a new program has priority 50 and chains on XDP_PASS only |
| Dispatcher.XdpProgram.SetChainCallEnabled | lib/libxdp/libxdp.c:632-644 | refused for loaded programs and for the dispatcher's own return value, so bit 31 can never be set by a caller |
| Dispatcher.XdpProgram.SetRunPrio | lib/libxdp/libxdp.c:663-670 | refused for loaded programs, otherwise only the priority changes |
| Dispatcher.RemovalCount | lib/libxdp/libxdp.c:2668-2713 | removing ids leaves at least the difference of the counts, and exactly that if and only if every id was there |
| Dispatcher.ReadBackAllOrNothing | lib/libxdp/libxdp.c:1987-2067 | a reader racing with an unpin gets all components or an error, never a part |
| Dispatcher.ReadBackExact | lib/libxdp/libxdp.c:1987-2067 | reading a pinned dispatcher returns programs, order, priorities and chain-call bits if and only if no component carries bit 31 itself |
| Dispatcher.PinStore.Pin | lib/libxdp/libxdp.c:2788-2870 | succeeds if and only if every file can be pinned beside what was there; on failure exactly those of the dispatcher's names are left that the clean-up could not unlink, and no empty directory unless that cannot be removed |
| Dispatcher.PinLeaves | lib/libxdp/libxdp.c:2859-2869 | what a failed pin leaves of a new directory is some of its files but never the last |
| Dispatcher.PartIsLeft | lib/libxdp/libxdp.c:2859-2869 | and every such part can be left |
| Dispatcher.PinStore.Unpin | lib/libxdp/libxdp.c:2872-2938 | removes the directory, or leaves exactly what remains of it after the first so many files; a complete directory is removed if and only if no file is refused; a missing one is an error and changes nothing |
| Dispatcher.PinStore.LinkPinnedProgs | lib/libxdp/libxdp.c:1987-2067 | the loop over the slots computes the read-back function that the lemmas above are about; num_links is the number of slots read, also when a later one fails |
| Dispatcher.RestLinksAllOrNone | lib/libxdp/libxdp.c:1987-2067 | a reader of what an interrupted removal left counts all programs or none |
| DispatcherGenerate.Collect | lib/libxdp/libxdp.c:2680-2722 | the array handed to the sort is old programs plus the new ones, or old programs minus the removed ones, if and only if there are as many as expected; more is the error, fewer means that the loop ran past the request or left entries unset |
| DispatcherGenerate.AttachFillsIffCountIsExact | lib/libxdp/libxdp.c:2666-2722 | for an attach the expected number is never too small, and right if and only if num_links is the length of the list |
| DispatcherGenerate.ReadPastTheRequest | lib/libxdp/libxdp.c:2719-2722 | an old dispatcher of which one program was counted and none kept, for which it is not |
| DispatcherGenerate.RemovalSize | lib/libxdp/libxdp.c:2668-2713 | for a detach the expected number is right if and only if every program to remove is there |
| DispatcherGenerate.WriteConfig | lib/libxdp/libxdp.c:2752-2758 | the arrays of the configuration hold priority and chain-call mask of program i in slot i, with bit 31 added |
| DispatcherGenerate.LinkAll | lib/libxdp/libxdp.c:2770-2774 | program i is linked to slot i and the list keeps that order |
| DispatcherGenerate.Generate | lib/libxdp/libxdp.c:2651-2786 | which inputs succeed, with which error the others fail, and for which the array is not filled; on success a sorted permutation of old plus new or old minus removed, no longer than the dispatcher, with a matching configuration |
| DispatcherGenerate.SortedKeysUnique | lib/libxdp/libxdp.c:1433-1476 | two sorted arrangements of the same priorities and names are equal |
| DispatcherGenerate.AttachThenDetachRestores | lib/libxdp/libxdp.c:2651-2786 | attaching and then detaching the same programs gives back the list, in the same order up to ties in priority and name |
| DispatcherSafety.ReadGivesLinks | lib/libxdp/libxdp.c:1987-2067 | in every reachable state a read of a dispatcher's pins gives its components or nothing, and gives them if it is attached; it counts as many as it gives |
| DispatcherSafety.CommitFaithful | lib/libxdp/libxdp.c:529-583 | a successful swap installs the requested change to the programs on the interface if and only if it does not rest on a failed read of pins that were there |
| DispatcherSafety.StepInv | lib/libxdp/libxdp.c:1623-1878 | every step of every process keeps the invariant |
| DispatcherSafety.ReachableInv | lib/libxdp/libxdp.c:1623-1878 | the invariant holds after every run of any number of processes |
| DispatcherFold.FoldIsCurrentPlusLost | lib/libxdp/libxdp.c:1623-1878 | after every run, the attached programs and those lost by commits that rest on a failed read of pins that were there are together the fold of all committed operations in commit order |
| DispatcherFold.NoLostUpdate | lib/libxdp/libxdp.c:1623-1878 | after every run, the attached programs are the fold of all committed operations if and only if no commit rests on such a read |
| DispatcherFold.FaithfulCommitsFold | lib/libxdp/libxdp.c:1623-1878 | commits that follow on each other and rest on no such read add up to the fold of their operations whatever ids the programs have, also if one comes back |
| DispatcherTheorems.HonestReadsLoseNothing | lib/libxdp/libxdp.c:1623-1878 | so they are in every run without such a read |
| DispatcherTheorems.SwapAppliesIffReadIsHonest | lib/libxdp/libxdp.c:1682-1709 | in every run, each commit applies its operation to the list then attached if and only if its read was not such a failure |
| DispatcherTheorems.VanishedReadNeverCommits | lib/libxdp/libxdp.c:2154-2170 | an attempt that found the pin directory gone never changes the interface, however the run goes on |
| DispatcherTheorems.AttachedIsPinned | lib/libxdp/libxdp.c:1682-1718 | in every reachable state the attached dispatcher has a complete pin directory that reads back as what was committed |
| DispatcherTheorems.AttachedIsSorted | lib/libxdp/libxdp.c:1433-1476 | in every reachable state the attached programs run in order of priority, and of names in dictionary order |
| DispatcherTheorems.AttachedTiesSorted | lib/libxdp/libxdp.c:1433-1476 | and no program stands behind one it precedes in the whole comparison if they were put there by a detach or by the first attempt of an attach, or if the list sorted by a later attempt has no crossing |
| DispatcherTheorems.DetachedStaysOff | lib/libxdp/libxdp.c:1735-1878 | in every reachable state no program of a committed detach is attached |
| DispatcherTheorems.PinsLeftIffRemovalFailed | lib/libxdp/libxdp.c:1682-1709 | when an operation is over, pins of a dispatcher it did not get attached are there if and only if removing them failed in this run, after a failed swap or in the clean-up of a failed pin |
| DispatcherPins.OldPinsLeftIffKept | lib/libxdp/libxdp.c:1711-1718 | in every run, once nobody is about to remove them, the pins of a dispatcher that was replaced or detached are there if and only if the operation that replaced it took it for a legacy program or could not remove them |
| DispatcherPins.PinsAtRest | lib/libxdp/libxdp.c:1623-1878 | when all operations are over, the dispatchers with pins are the attached one, those never attached whose removal failed and those replaced whose pins were kept, and no others |
| DispatcherTheorems.ResultTellsCommits | lib/libxdp/libxdp.c:1841-1877 | an operation that is over committed once if it succeeded or the unpin after its commit failed, and not at all otherwise; only a detach reports an error then, the one of the unpin or, when that was -EAGAIN, the one it got when it started over |
| DispatcherTheorems.OnlyCommitsChangeTheInterface | lib/libxdp/libxdp.c:529-583 | whatever is attached changes only by a commit of the process that takes the step |
| DispatcherTheorems.BoundedRetry | lib/libxdp/libxdp.c:1682-1709 | under every schedule and whatever the kernel answers, an operation takes at most 318 steps of its own |
| DispatcherTheorems.LostRace | lib/libxdp/libxdp.c:1682-1709 | in every run, a swap that finds another dispatcher than it expects commits nothing; the operation starts over if and only if it had read a dispatcher and has retries left, ends with -EBUSY without retries, and with the error of the kernel if it had found the interface empty, whatever others do meanwhile |
| DispatcherTheorems.FailedCall | lib/libxdp/libxdp.c:1665-1709 | in every run a failing load, pin or swap changes nothing on the interface; an attach is over with the error of a load or pin, also with -EAGAIN, a detach starts over then; after a swap both start over on -EAGAIN, at most ten times, and end with -EBUSY then |
| DispatcherTheorems.UnpinnedGoesOn | lib/libxdp/libxdp.c:1688-1709 | that decision does not depend on whether the new pins could be removed |
| DispatcherTheorems.LegacyDetach | lib/libxdp/libxdp.c:1756-1796 | in every run a detach that takes the dispatcher for a legacy program removes it if and only if it is asked for that one program, and reports which of the two errors otherwise |
| DispatcherTheorems.FailedReadIsPartial | lib/libxdp/libxdp.c:1987-2067 | in every run a read that fails although the pins are there has counted fewer programs than the dispatcher holds |
| DispatcherTheorems.NeverStuck | lib/libxdp/libxdp.c:1623-1878 | an operation that is not over can take a step |
| DispatcherAlone.UndisturbedDoesIt | lib/libxdp/libxdp.c:1623-1878 | an operation that nobody disturbs and whose calls work succeeds with the request applied once to the attached programs, or changes nothing and reports exactly why it cannot be applied |
| DispatcherAlone.UndisturbedFinishes | lib/libxdp/libxdp.c:1623-1878 | from every reachable state such a run to the end exists |
| DispatcherTheorems.LoadIsGenerate | lib/libxdp/libxdp.c:2651-2786 | whatever Generate answers for the dispatcher a process read is what its load step does: the dispatcher installed, the error, or the loop past the request; a program to remove is never found missing |
| DispatcherTheorems.AstrayIffCountLeftOver | lib/libxdp/libxdp.c:2666-2722 | in every reachable state an attach runs past its request if and only if its read failed after the first program and the numbers stay within the dispatcher |
| DispatcherRuns.LostFirstAttachIsNotRetried | lib/libxdp/libxdp.c:529-583 | two processes attach to an empty interface, and the second one ends with an error at its first attempt |
| DispatcherRuns.PinsCanStay | lib/libxdp/libxdp.c:1682-1709 | the same, and the pins of its dispatcher stay |
| DispatcherRuns.FailedPinLeavesPins | lib/libxdp/libxdp.c:2859-2869 | a run in which pinning fails and a file stays |
| DispatcherRuns.DetachReportsNothingThere | lib/libxdp/libxdp.c:1830-1877 | a run in which a detach empties the interface and ends with -ENOENT |
| DispatcherRuns.RetryDependsOnGivenOrder | lib/libxdp/libxdp.c:1433-1476 | two runs in which an attach lost a race and repeats one request, given in two orders, and that end with different orders of programs of equal priority and name |
| DispatcherRuns.CountLeftOverGoesAstray | lib/libxdp/libxdp.c:2719-2722 | a run in which an attach reads past its request |
| DispatcherRuns.UnreadablePinsLoseUpdates | lib/libxdp/libxdp.c:1987-2067 | a run after which a committed program is missing from the interface |
| XskRing.NbFreeIsTrueCount | headers/xdp/xsk.h:90-108 | the wrapped subtraction is a true free count, never above the real one, and below the request only if the real one is |
| XskRing.NbAvailIsTrueCount | headers/xdp/xsk.h:110-120 | the wrapped subtraction is the number of entries submitted and not peeked, cut to the request |
| XskRing.SlotOfPosition | headers/xdp/xsk.h:53-83 | masking a wrapped index finds the slot of the position it stands for, after any number of wraps |
| XskRing.ReserveKeeps | headers/xdp/xsk.h:122-131 | reserving keeps words and counts coupled and grants what it says |
| XskRing.PeekKeeps | headers/xdp/xsk.h:141-151 | peeking keeps words and counts coupled and returns what it says |
| XskRing.ReachedOK | headers/xdp/xsk.h:90-164 | after every interleaving of both sides the 32-bit words, the slots and the logs agree with the unbounded counts |
| XskRing.FirstInFirstOut | headers/xdp/xsk.h:110-164 | the released entries are a prefix of the submitted ones in order, and no more than the ring size are between |
| XskRing.PeekedEntryIsSentEntry | headers/xdp/xsk.h:61-83 | a peeked and not released position still holds the entry that was submitted there |
| XskRing.CancelledEntriesReturn | headers/xdp/xsk.h:153-156 | in every run, after a cancel and whatever the producer does then, the next peek starts at the first cancelled index and finds behind each index what was there before the cancel |
| XskRing.GrantedSlotsAreFree | headers/xdp/xsk.h:122-131 | the slots of a granted reservation are distinct and none holds an unreleased entry |
| XskRingSides.RingProd.constructor | lib/libxdp/xsk.c:1141-1151 | the producer starts with its view of the consumer one ring size ahead |
| XskRingSides.RingProd.NbFree | headers/xdp/xsk.h:90-108 | refines the step on words, for every state of the other side's caches |
| XskRingSides.RingProd.Reserve | headers/xdp/xsk.h:122-131 | refines the step on words; the index returned is the first reserved one |
| XskRingSides.RingProd.Submit | headers/xdp/xsk.h:133-139 | refines the step on words |
| XskRingSides.RingProd.Store | headers/xdp/xsk.h:53-59 | writes the one slot its masked index names |
| XskRingSides.RingCons.constructor | lib/libxdp/xsk.c:1120-1127 | the consumer starts at the shared indices |
| XskRingSides.RingCons.NbAvail | headers/xdp/xsk.h:110-120 | refines the step on words |
| XskRingSides.RingCons.Peek | headers/xdp/xsk.h:141-151 | refines the step on words; the index returned is the first peeked one |
| XskRingSides.RingCons.Cancel | headers/xdp/xsk.h:153-156 | refines the step on words |
| XskRingSides.RingCons.Release | headers/xdp/xsk.h:158-164 | refines the step on words |
| XskRingSides.RingCons.LoadEntry | headers/xdp/xsk.h:61-67 | reads the slot its masked index names |
| XskProgRefcount.ReachableInv | lib/libxdp/xsk.c:787-885 | after every run the count is holders plus leaks, and a counted program has been or is being detached by a release if and only if its count is zero |
| XskProgRefcount.CountIsHoldersPlusLeaks | lib/libxdp/xsk.c:730-785 | the count is the number of live holders plus the raises that nobody takes back |
| XskProgRefcount.ZeroIsAbsorbing | lib/libxdp/xsk.c:760-767 | once the count is zero it stays zero, with no holders, however the run goes on |
| XskProgRefcount.ReleaseDetachIsSafe | lib/libxdp/xsk.c:1239-1258 | a socket about to detach on release finds a count of zero and no holders |
| XskProgRefcount.DetachedByReleaseAtMostOnce | lib/libxdp/xsk.c:1239-1258 | releases try to detach a program at most once |
| XskProgRefcount.LastReleaseDetaches | lib/libxdp/xsk.c:1239-1258 | and exactly once if and only if every holder has released it and no raise leaked |
| XskProgRefcount.ReleasedIsDetached | lib/libxdp/xsk.c:1239-1258 | then the program is off the interface if and only if that detach did not fail |
| XskProgHistory.EveryPhaseEarned | lib/libxdp/xsk.c:787-885 | in every run a socket makes its own program only if the lookup found none or one whose count is zero for good, holds only what it attached or found and raised, and detaches only a program at zero after its release |
| XskProgRefcount.LatecomerMovesOn | lib/libxdp/xsk.c:796-847 | a setup that saw a zero count fails or ends on a different program |
| XskProgRefcount.NeverDetachedWhileHeld | lib/libxdp/xsk.c:787-885 | if every failing setup that detaches its program does so while nobody else knows it, no program is detached while a holder lives |
| XskProgRefcount.HarmfulFailureStrandsASocket | lib/libxdp/xsk.c:855-885 | a failing setup that detaches a program another socket knows does leave that socket without its program, at once or with its next step |
| XskProgRefcount.HolderCanBeStranded | lib/libxdp/xsk.c:855-885 | a run in which it happens |
| List.Add | headers/linux/list.h:25-47 | the new node is first in both directions of the cycle |
| List.Delete | headers/linux/list.h:55-77 | the cycle without that node, both ways, and the node unlinked |
| List.Empty | headers/linux/list.h:79-82 | true exactly for a head alone |
| XskUmem.Umem.constructor | lib/libxdp/xsk.c:323-335 | a new umem has no sockets and an empty list |
| XskUmem.Umem.GetCtx | lib/libxdp/xsk.c:887-902 | finds the context with that key and raises its count, or there is none |
| XskUmem.Umem.CreateCtx | lib/libxdp/xsk.c:930-967 | a new context with count one, listed once |
| XskUmem.Umem.PutCtx | lib/libxdp/xsk.c:904-928 | one count less; the last one takes the context off the list |
| XskUmem.Umem.CreateShared | lib/libxdp/xsk.c:1005-1199 | a new socket counted in umem and context, or everything as before, except that a failed socket() call keeps the umem's count raised; at most one socket has the umem's own descriptor |
| XskUmem.Umem.DeleteSocket | lib/libxdp/xsk.c:1260-1298 | counts go down, and the context stays listed exactly if another socket uses it |
| XskUmem.Umem.DeleteUmem | lib/libxdp/xsk.c:1214-1237 | refused exactly while there are sockets or leaked counts; otherwise no context is left |
| PcapNgFormat.LERoundTrip | lib/util/xpcapng.c:168-190 | a number is read back from k little-endian bytes if and only if it fits |
| PcapNgFormat.ParseFileAppend | lib/util/xpcapng.c:195-534 | in a file of blocks, appending a block appends exactly what is read |
| PcapNgFormat.ParseFileTorn | lib/util/xpcapng.c:269-273 | a file of blocks with a part of a block behind them cannot be read |
| PcapNgWriter.AddOption | lib/util/xpcapng.c:176-190 | code, 16-bit length and that many bytes, nothing else touched, next position aligned |
| PcapNgWriter.LaidOutParses | lib/util/xpcapng.c:176-190 | options one after the other, closed by the end option, read back as those options whatever the padding bytes are |
| PcapNgWriter.PassesAgreeIffShort | lib/util/xpcapng.c:168-190 | measured and written length of a value agree if and only if it is shorter than 65536 bytes |
| PcapNgWriter.WriteShb | lib/util/xpcapng.c:195-276 | as many bytes as measured, and read back with these options if and only if every string is short enough |
| PcapNgInterface.WriteIdb | lib/util/xpcapng.c:281-373 | likewise for interface blocks |
| PcapNgPacket.PutFixedOptions | lib/util/xpcapng.c:450-475 | the 64-byte buffer holds every choice of options with room for the end option and the length |
| PcapNgPacket.SendEpb | lib/util/xpcapng.c:488-529 | at most seven pieces, which together are header, packet, padding, comment and options in that order |
| PcapNgPacket.MeasureEpb | lib/util/xpcapng.c:412-439 | the first pass counts header, padded packet, every option present, end option and trailing length |
| PcapNgPacket.WriteEpb | lib/util/xpcapng.c:378-534 | as many bytes as measured, and read back as this packet with these options if and only if the comment is shorter than 65536 bytes and the length fits 32 bits |
| PcapNgDumper.Dumper.Open | lib/util/xpcapng.c:539-582 | a dumper if and only if the file takes the whole section block, which is readable if and only if the strings are short enough |
| PcapNgDumper.Dumper.Append | lib/util/xpcapng.c:269-273 | a readable file stays readable if and only if it takes all of a block or nothing of it; a block that is not taken whole is reported |
| PcapNgDumper.Dumper.AddInterface | lib/util/xpcapng.c:611-621 | returns the number a reader gives the new interface, or -1 if and only if the write is not complete; says when the file stays readable |
| PcapNgDumper.Dumper.EnhancedPacket | lib/util/xpcapng.c:626-635 | appends one packet, or reports a write that is not complete; says when the file stays readable |
| CaptureLog.NumbersReadBack | xdp-dump/xdpdump.c:474-492 | a reader finds the drop count and the packet id in each block |
| CaptureLog.BlockTells | xdp-dump/xdpdump.c:463-492 | and the captured bytes cut to the snap length, the original length, the time since the epoch, the interface of program and direction, the queue, and for an exit the verdict in two's complement |
| CaptureLog.CaptureTells | xdp-dump/xdpdump.c:452-556 | the blocks of a capture tell of its accepted events in this way, one by one and in order |
| CaptureLog.DropsConserved | xdp-dump/xdpdump.c:452-556 | drop counts written plus the pending count are all events lost |
| CaptureLog.DropsConservedModulo | xdp-dump/xdpdump.c:452-556 | the same modulo 2^64 once counters have wrapped |
| CaptureLog.OneBlockPerSample | xdp-dump/xdpdump.c:452-556 | one block per accepted sample |
| CaptureLog.IdsIncrease | xdp-dump/xdpdump.c:466-469 | ids are handed out strictly increasing from one |
| CaptureLog.SlotsDistinct | xdp-dump/xdpdump.c:466-469 | no two CPUs hold the same id |
| CaptureLog.SamplesShareTheEntryId | xdp-dump/xdpdump.c:466-469 | every sample carries the id of the packet that last entered on its CPU |
| CaptureLog.CaptureResolves | xdp-dump/xdpdump.c:463-492 | every packet refers to an interface block written before it |
| Capture.AddInterfaces | xdp-dump/xdpdump.c:1235-1287 | two interfaces per program, in order, if and only if every name fits its buffer and every write is complete |
| Capture.NamedAfter | xdp-dump/xdpdump.c:1253-1285 | interface names read device:function()@fentry and device:function()@fexit |
| Capture.BlockDescribes | xdp-dump/xdpdump.c:1235-1287 | a reader finds in an interface block an Ethernet link with nanosecond timestamps, the name, the driver, and the speed where it is known |
| Capture.SamplesUseTheirInterface | xdp-dump/xdpdump.c:463-465 | the interface a sample refers to is the one that describes its program and direction |
| Capture.Context.constructor | xdp-dump/xdpdump.c:1779-1785 | all counters zero |
| Capture.Context.AssignId | xdp-dump/xdpdump.c:466-469 | the CPU's slot holds the id of the packet last seen there |
| Capture.Context.HandleSample | xdp-dump/xdpdump.c:474-492 | the block a complete write adds tells a reader of this event; a write that is not complete goes unnoticed: the block is missing, or the file can no longer be read |
| Capture.Context.HandleEvent | xdp-dump/xdpdump.c:436-561 | events are rejected for exactly the four reasons of the code; counters are those of the events seen, after every event, and so is the file if every write was complete |
| Parsing.TagsUnique | headers/xdp/parsing_helpers.h:77-110 | the number of tags that can be skipped is determined by the packet |
| Parsing.ParseEthHdr | headers/xdp/parsing_helpers.h:77-110 | from any cursor position: -1, or the EtherType behind all tags up to four that fit, with the cursor there |
| Parsing.ChainAdvances | headers/xdp/parsing_helpers.h:112-145 | every extension header moves on by at least eight bytes |
| Parsing.SkipIp6HdrExt | headers/xdp/parsing_helpers.h:112-145 | the answer of the unbounded walk of RFC 8200 for chains of at most five extension headers with two bytes behind them, -1 for all others |
| Parsing.ParseIp6Hdr | headers/xdp/parsing_helpers.h:147-164 | the protocol behind the fixed header and the walk, with the cursor inside the packet |
| Parsing.ParseIpHdr | headers/xdp/parsing_helpers.h:166-186 | protocol and end of an IPv4 header that fits, -1 otherwise; behind a first byte 0x45 to 0x4F the cursor is four bytes on for each word the low digit counts |
| Parsing.ParseUdpHdr | headers/xdp/parsing_helpers.h:236-254 | payload length of a header that fits and is long enough, -1 otherwise |
| Parsing.ParseTcpHdr | headers/xdp/parsing_helpers.h:259-277 | header length if it fits, -1 otherwise; the cursor moves past the fixed part |
| FilterVerdict.FirstIsFirst | xdp-filter/xdpfilt_prog.h:33-55 | the outcome is that of the first check that settles the matter |
| FilterVerdict.MissMeansNone | xdp-filter/xdpfilt_prog.h:33-55 | a miss means that no check settles it |
| FilterVerdict.DenyComplementsAllow | xdp-filter/xdpfilt_prog.h:23-31 | deny passes what allow drops and drops what allow passes; both abort alike |
| FilterVerdict.EmptiedSettles | xdp-filter/xdpfilt_prog.h:67-92 | emptying the rules of the other features takes away exactly their matches, also in the port map shared by TCP and UDP |
| FilterVerdict.Specialises | xdp-filter/xdpfilt_prog.h:196-248 | a program with fewer features decides like the full one with the other rules emptied if and only if that one does not abort or the program itself meets the header that does not parse |
| FilterVerdict.AbortsDiffer | xdp-filter/xdpfilt_prog.h:196-248 | packets on which the two differ |
| FilterFrames.FieldsDecide | xdp-filter/xdpfilt_prog.h:197-248 | for every well-formed frame (any number of tags, IPv4 with any options, IPv6 with any chain of extension headers, UDP, TCP or another segment), every feature set and all rules, the verdict on its bytes is the verdict on its fields |
| FilterFrames.LonePortRule | xdp-filter/xdpfilt_prog.h:144-178 | one rule for a port drops, or in deny mode passes, exactly the frames of that protocol with the port in that direction |
| FilterFrames.ChainAt | headers/xdp/parsing_helpers.h:112-145 | the unbounded walk over any chain of extension headers ends behind them at the protocol of the segment, having met as many as there are |
| FilterCounters.BumpedKeepsFlags | xdp-filter/xdpfilt_prog.h:47-55 | a hit adds one to the counter, up to 58 bits, and leaves the flags |
| FilterCounters.ReflaggedKeepsCount | xdp-filter/xdp-filter.c:140-141 | a flag edit leaves the counter |
| FilterCounters.HitsUpdate | xdp-filter/xdp-filter.c:94-105 | replacing one rule's words changes the total by the change in that rule |
| FilterProgram.Filter.constructor | xdp-filter/xdpfilt_prog.h:57-64 | no rules, nothing recorded |
| FilterProgram.Filter.CheckMap | xdp-filter/xdpfilt_prog.h:47-55 | hits exactly when the word has the flags, and then changes this CPU's word only |
| FilterProgram.Filter.LookupVerdict | xdp-filter/xdpfilt_prog.h:67-178 | destination before source, one hit at most |
| FilterProgram.Filter.Decide | xdp-filter/xdpfilt_prog.h:197-247 | the action and the rule words are those of the declared verdict, for every feature set and packet |
| FilterProgram.Filter.RecordAction | headers/xdp/xdp_stats_kern.h:25-44 | one packet and its bytes under that action on that CPU |
| FilterProgram.Filter.Run | xdp-filter/xdpfilt_prog.h:197-248 | verdict, words and statistics of one packet; packets recorded are those processed, and hits counted by the rules, with those forgotten by edits, are the packets of the hit action, both up to the wraps that are counted |
| FilterProgram.Filter.ConservedModulo | xdp-filter/xdpfilt_prog.h:197-248 | both laws hold modulo the counters at all times, and as equations until a counter wraps |
| FilterProgram.RuleCountsHits | xdp-filter/xdpfilt_prog.h:47-55 | under any sequence of packets on any CPUs, a rule counts the packets that hit it, up to wraps |
| FilterProgram.Filter.SetFlags | xdp-filter/xdp-filter.c:112-158 | nonzero flags replace the flags on every CPU and keep the counts that were read, so that the hits of packets in between are forgotten and no others; zero empties or deletes the rule; other rules stay; a failing map call changes nothing |
| FilterProgram.Filter.GetCounterFlags | xdp-filter/xdp-filter.c:74-110 | the sum over the CPUs and the flags they share, or nothing when no flag is set |
| Hlist.Unlink | headers/linux/hlist.h:47-55 | the chain without that node |
| Hlist.DelInit | headers/linux/hlist.h:64-70 | likewise, with the node reset; nothing happens to a node on no list |
| Hlist.AddHead | headers/linux/hlist.h:72-80 | the chain with the node in front |
| Hlist.AddBefore | headers/linux/hlist.h:83-90 | the chain with the node before the given one |
| Hlist.AddBehind | headers/linux/hlist.h:92-101 | the chain with the node behind the given one |
| Hlist.MoveList | headers/linux/hlist.h:118-125 | the whole chain hangs on the other head, the first is empty |
| Hlist.ForEach | headers/linux/hlist.h:129-130 | every node of the chain in order |
| HashTable.Hash32 | headers/linux/hashtable.h:33-42 | the index is below the number of buckets |
| HashTable.Hash64 | headers/linux/hashtable.h:44-53 | the index is below the number of buckets |
| HashSpread.ScrambleBijective | headers/linux/hashtable.h:33-36 | the 32-bit product loses nothing: it is a bijection |
| HashSpread.NarrowEvenlySpread | headers/linux/hashtable.h:38-42 | of all 32-bit keys every bucket gets exactly 2^(32 - bits) |
| HashSpread.WideEvenlySpread | headers/linux/hashtable.h:44-53 | so it does of all 64-bit keys with a given upper half |
| HashSpread.WideMeetsNarrow | headers/linux/hashtable.h:44-53 | a key that fits 32 bits has the same index either way, and a lower half equal to the product of the upper one cancels it |
| HashTable.Table.constructor | headers/linux/hashtable.h:69-75 | all buckets empty |
| HashTable.Table.Add | headers/linux/hashtable.h:95-96 | every bucket stays a chain of the nodes that hash to it; the node is stored |
| HashTable.Table.Del | headers/linux/hashtable.h:131-134 | the same without the node; no effect on a node not stored |
| HashTable.Table.Empty | headers/linux/hashtable.h:107-116 | true exactly if nothing is stored |
| HashTable.Table.ForEach | headers/linux/hashtable.h:143-146 | every stored node, exactly once |
| HashTable.Table.ForEachPossible | headers/linux/hashtable.h:170-171 | every node stored under the key, no node twice, only stored nodes |
| Jhash.MixBijective | headers/linux/jhash.h:33-41 | mixing a block is a bijection on the three words |
| Jhash.FinalBijective | headers/linux/jhash.h:43-52 | so is the final mix |
| Jhash.RolMovesBits | headers/linux/jhash.h:25-28 | the rotation moves every bit up, round the end of the word |
| Words.XorBits | headers/linux/jhash.h:33-52 | a bit of the exclusive or is set where exactly one of the two is |
| Jhash.OneBlockTells | headers/linux/jhash.h:114-142 | keys of the same length that differ within one block of three words end in different states |
| Jhash.EmptyKey | headers/linux/jhash.h:54-105 | the hash of an empty key is the initial value plus 0xdeadbeef, not mixed |
| Jhash.JhashMix | headers/linux/jhash.h:33-41 | the macro's assignments are six turns of one invertible line |
| Jhash.JhashFinal | headers/linux/jhash.h:43-52 | the macro's assignments are seven invertible lines |
| Jhash.Jhash2 | headers/linux/jhash.h:114-142 | the loop computes the hash of the words, seeded with four times their number in 32 bits |
| Jhash.JhashBytes | headers/linux/jhash.h:68-105 | for every length, the hash of the zero-padded little-endian words, seeded with the length in bytes |
| Jhash.Jhash3Words | headers/linux/jhash.h:157-160 | the word hash of three words |
| Jhash.Jhash2Words | headers/linux/jhash.h:162-165 | the word hash of two words |
| Jhash.Jhash1Word | headers/linux/jhash.h:167-170 | the word hash of one word |
| Jhash.FormsAgree | headers/linux/jhash.h:114-142 | below 2^30 words the word form and the byte form agree |
| FlagList.FindFlag | lib/util/params.c:174-183 | the first flag with that name |
| FlagList.HandleFlags | lib/util/params.c:185-207 | cutting the list in place yields its meaning, and an error exactly when a name is unknown |
| FlagList.MeaningOfNames | lib/util/params.c:185-207 | a list of known names means the union of their flags |
| FlagList.PrintFlags | lib/util/params.c:361-385 | in a buffer of any length: the names of the flags in the mask, in table order and separated by commas, as far as they fit, with a comma behind when the list is cut, terminated if there is room |
| FlagList.ShownIsWhole | lib/util/params.c:361-385 | the whole list is there and terminated if and only if the buffer is longer than it |
| FlagList.TerminatorFits | lib/util/params.c:361-385 | there is room for the terminator unless the buffer is empty or the list is cut where one character is left |
| FlagList.TerminatorBehindBuffer | lib/util/params.c:361-385 | two flags and a buffer of two characters without room |
| FlagList.RoundTrip | lib/util/params.c:361-385 | parsing the printed list gives the mask back |
| FlagList.PrintThenHandle | lib/util/params.c:185-207 | the same on one buffer |

## Left out

- Legacy, hardware and skip-dispatcher attach paths, and the fallbacks for kernels without old_fd or multi-program support (lib/libxdp/libxdp.c:555-562): thin branches over foreign calls.
- Cleaning of stale references in the bpffs, locking of the bpffs directory, and BTF, ELF and bpffs access: kernel and library calls.
- Attaching programs that are already loaded, and attaching a program again after it was detached: every request brings programs with new ids, as loading gives them.
- The comparison of attach modes at the start of a detach.
- What a process does after it has read past its request: the machine lets it take no more steps.
- qsort() is any function that permutes its input into order of priority and name, and sorts it when the comparison is consistent; Generate uses merge sort.
- The dispatcher BPF program: it is not part of this model.
- Saved fill and completion rings, mapping and unmapping of rings, and the flags of ring setup in lib/libxdp/xsk.c: memory management.
- The cached producer index of the fill ring, which the library leaves to its caller to clear.
- Memory ordering between the two sides of a ring: each library function is one step.
- HashTable.Hash32: tables with a single bucket, where the C shift by 32 is not defined.
- Dumper.AddInterface: interface numbers beyond 32 bits.
- The snap length of an interface block is narrowed to 16 bits by its parameter type and not related to captured lengths.
- Plain pcap output, hex dumps and text output of xdpdump, and the perf ring itself.
- Filter.SetFlags: each map system call is one step, also where the kernel copies the words of one CPU after the other.
- The parts of xdp-filter that compute a flag byte from the command line, load programs and print status.
- ICMP parsers, which the filter does not use.
- hlist_del() with poison values and hlist_add_fake(): the table uses neither.
- xdp-bench, xdp-monitor and the sampling programs: mostly set-up code.
