# A verified model of portpin

portpin frees a TCP or UDP port: it finds the process that holds the port, pins
that process so that its PID cannot be mistaken for another's, and takes it
through an escalation from a polite stop to a hard kill until the port is free.
This project models the four parts in which a mistake would kill the wrong
process or report the wrong thing, and proves what they promise.

1. **Which processes form a group** (`ProcGraph`, `Search`, `Depth`, `Group`,
   `Membership`; `Orbit` holds the pigeonhole argument). `GroupMembers` works on
   an arbitrary parent graph, cycles included. The methods follow its loops; the
   lemmas say that the members are the least set closed under the search, that
   the order is parents first, that the answer does not depend on the order of
   the table or of any map, and what a group can never contain. `Membership`
   says over the fields of the rows when each refusal is given, who is listed,
   with what, and in which order.
2. **Pinning and signalling** (`Kernel`, `Machine`, `Pinning`, `GroupErrors`,
   `Grouping`, `Escalation`, `Course`, `Conduct`, `Outcomes`, `Endpoint`,
   `Watching`, `Vetting`, `Teardown`, `KillOne`, `Order`). The kernel is a
   transition system over process instances that exits, reaps, and reuses PIDs
   for any number of steps before every system call. A `Machine` keeps ghost
   journals: the facts, each dated with the state of the kernel in which it came
   about (which instance a pidfd was opened on, who was seen holding an
   endpoint, whom a signal reached), the requests portpin made with their
   answers, and the system calls of pins and signals with what they returned.
   Only the methods of `Machine` and a controller's own signal call write them,
   and `Machine.Valid` says that the signals delivered are those that the
   requests report taken. The escalation is an automaton over its calls;
   `Course` tells what is due after any calls without its states, and that the
   accepted logs are exactly those that always do what is due. `Conduct.Ran`
   says that a sequence of requests is exactly that of the calls of an accepted
   run, nothing left over; the methods are proved to make such requests, and
   `Conduct`, `Outcomes`, `Endpoint` and `Order` prove the safety, order, time
   and outcome properties of all such sequences. `Vetting` says whom the signals
   reach.
3. **Racy snapshots** (`Owners`, `Resolving`, `SockRows`, `MacListing`; `Positions`
   holds what they share). The bounded retry that separates exiting owners from
   invisible ones on Linux, why the owners it reports held their endpoints, and the
   double multiset difference of the macOS listing.
4. **Socket tables** (`Bytes`, `InetDiag`, `Netlink`, `Text`, `ProcNet`,
   `Sources`). The netlink and `/proc/net` decoders, and the theorem that both
   read the same socket as the same row. The encoders are written from the
   formats, not from the decoders; the frame format is that of section 2.3.2 of
   RFC 3549.

## Hypotheses

- An instance of a process never comes back after it is reaped, and no two
  instances share both PID and start time. Both are part of `Kernel.Enabled`.
- A process that exits closes its sockets; as a zombie it opens none.
- A pidfd names an instance; its number may be reused once the instance is
  reaped, and sending to a reaped instance reports ESRCH.
- An owner the resolver reports held the endpoint at some instant during the
  call. It may fail, miss sockets, and take any time. On Linux this follows
  (`Resolving.AttachedOwnersHeld`) when each row and each sighting holds at some
  instant of the call and no inode is used for another socket meanwhile.
- The process table lists each PID once.
- Which parents may be climbed to (`climbable`) is an arbitrary predicate.
- PIDs, start times and UIDs are only compared, so they are unbounded naturals;
  the fields that the decoders read carry their widths. Durations are integers
  in nanoseconds.
- `errors.Is` sees through wrapping, so an error is the sentinel it wraps.
- Text is ASCII; the machine is little-endian.

## Where the code and its documentation differ

The model follows the code.

- README.md:164 promises every descendant of the target. The search does not
  expand members seeded from the process group
  (`Group.DescendantBelowSeedIsMissed`, and `Search.AllDescendantsIff` for
  exactly when every descendant is found).
- internal/terminate/terminate.go:21 says that released means a free endpoint. It
  means that the last lookup reported none of the processes there. It may report
  somebody else; it reports nobody at all exactly when it reports no stranger
  (`Endpoint.ReleasedMeansFreeIff`, `Endpoint.ReleasedMayBeHeld`).
- internal/terminate/terminate.go:23-25 says that a zombie outcome means a free
  endpoint. At that instant the zombie itself holds nothing, but another member of
  its group may, and so may a child that inherited the socket. None of the processes
  holds the endpoint exactly when the graceful stage is skipped, so that no zombie is
  ever reported, or the zombie is the only process; nobody at all holds it exactly
  in the first case (`Endpoint.ZombieMeansLetGoIff`, `Endpoint.ZombieMeansUnheldIff`,
  `Endpoint.ZombieWhileHeld`).
- README.md:33-34 says that on Linux no signal is ever sent to a bare PID that could
  have been reused. Without pidfds it may be: the start time agrees, then the PID
  passes on, then the signal goes out (`Kernel.BareKillMayMiss`). Nobody but the
  pinned process is ever signalled exactly when the pin is a pidfd
  (`Kernel.NeverAnotherIff`); otherwise the recipient has the start time of the pin
  or started since everything that was seen before (`Vetting.RecipientsAreVetted`,
  `Vetting.MeantOrNewer`).
- README.md:29 and internal/pin/pin_linux.go:48-49 say that a pidfd reserves the PID.
  The kernel of the model reuses it as soon as the process is reaped; that the pidfd
  goes on naming the reaped process is all the proofs need.
- README.md:239 and cmd/portpin/main.go:592 say of an identity change that
  nothing was signalled. That holds exactly when the processes are held by pidfds,
  where it is never reported, or when one process alone is killed at once
  (`Outcomes.ChangedMeansUntouchedIff`). After a graceful stop it may follow a
  delivered signal (`Escalation.ChangedMayFollowASignal`), and with `--force` on a
  group other members may have been killed (`Outcomes.ForcedGroupMayBeTouched`).
- internal/pin/pin.go:32 says that every method re-verifies the identity of the
  process. `Lifecycle` reads by PID and does not: it may report a zombie that is
  another process (`Kernel.ZombieMayBeAnother`). The report is about the pinned
  process exactly when that has not been reaped, which is when the start times
  agree (`Kernel.ReadIsAboutPinnedIff`, `Teardown.Examine`).
- A target that is missing from the table, or has another start time, is
  answered with itself and no refusal check (`Group.HarmlessIff`).
- The climb does not end when it gets into a loop: climbable parents that started
  at the same known time, the first the parent of the last
  (`ProcGraph.ClimbHaltsIffNoLoopAbove`, `ProcGraph.ClimbsHaltIffNoLoop`,
  `ProcGraph.ClimbCanDiverge`).
- A timeout is reported without a probe after the kill exactly when the hard wait is
  not positive (`Escalation.OutcomeMeaning`, `Escalation.TimeoutMayBeUnprobed`). The
  command line always waits, so only another caller of `Run` can meet this.
- internal/discover/netlink_linux.go:23-51 gives each request a sequence number and
  never compares it. A dump that fails early leaves replies which the next dump reads
  as its own (`Netlink.LeftoverRow`); it starts with its own exactly when the one
  before uses up its replies (`Netlink.NextStartsRightIff`).
- A group closes its primary once for each time the metas list its PID
  (`Grouping.GroupCounts`), so every handle is closed exactly once exactly when
  they list it once at most (`KillOne.KillOne`; `Grouping.TwiceListed` is a group
  where they do not). Groups from `GroupMembers` list it once
  (`Group.TargetIsMember`).

## Model

| member | source | states |
|---|---|---|
| ProcGraph.ByPidHolds | internal/discover/group.go:139-144 | with distinct PIDs the index by PID holds exactly the rows of the table |
| ProcGraph.ByPidIgnoresOrder | internal/discover/group.go:139-144 | two tables with the same rows in any order index to the same map |
| ProcGraph.SelfChain | internal/discover/group.go:151-159 | the walk ends on every table, cyclic ones included, and collects exactly portpin and its ancestors |
| ProcGraph.ClimbEndUnique | internal/discover/group.go:161-169 | the climb ends at one process only |
| ProcGraph.ClimbStartTimesFall | internal/discover/group.go:163-168 | start times never rise along the climb |
| ProcGraph.ClimbHaltsIffNoLoopAbove | internal/discover/group.go:162-169 | on every table the climb from a process ends exactly when it does not get to a loop: rows outside portpin's chain, all climbable and of one known start time, each the parent of the one before and the first the parent of the last |
| ProcGraph.ClimbsHaltIffNoLoop | internal/discover/group.go:162-169 | every climb on a table ends exactly when the table holds no such loop |
| ProcGraph.ClimbCycleJoinsEqualStartTimes | internal/discover/group.go:162-169 | every step of a climb that returns joins a parent and a child of equal start time |
| ProcGraph.ClimbCanDiverge | internal/discover/group.go:162-169 | a concrete table with distinct PIDs, portpin among them with its own chain, on which the climb never ends |
| ProcGraph.Climb | internal/discover/group.go:161-169 | with process groups the root is the target; without, it is the process the climb ends at |
| Search.SeedGroup | internal/discover/group.go:171-182 | the seeds are the root and, of the target's process group, the target, the processes that are not detached, and the protected ones |
| Search.Expand | internal/discover/group.go:184-191 | one round adds exactly the valid children that are not yet members, and queues exactly those |
| Search.Grow | internal/discover/group.go:183-192 | the search ends on every table and yields the seeds plus what valid child links reach from the root without passing another seed |
| Search.MembersAreLeastClosure | internal/discover/group.go:171-192 | the members are the least set that holds the seeds and all valid children of the root and of each member the search added |
| Search.TreeMembersAreReachable | internal/discover/group.go:183-192 | without process groups the members are exactly what valid child links reach from the root |
| Search.ClimbIsReachable | internal/discover/group.go:161-169 | the search can walk back down every climb, so the target is reachable from the root |
| Group.DescendantBelowSeedIsMissed | internal/discover/group.go:185-188 | a concrete table whose only answer leaves a descendant of the target out |
| Search.AllDescendantsIff | internal/discover/group.go:171-192 | every descendant is found exactly when no reachable seed but the root has a valid child that is not a seed |
| Depth.MeasureDepth | internal/discover/group.go:193-199 | the loop ends on every group and counts the links up to the first parent outside, at most the size of the group |
| Depth.CappedDepthCounts | internal/discover/group.go:193-199 | below the cap the count is the exact length of the chain |
| Depth.DepthHitsCapIffCyclic | internal/discover/group.go:195 | the cap is hit exactly on chains that run into a cycle |
| Depth.DepthBelowParent | internal/discover/group.go:193-199 | on an acyclic chain a member is exactly one deeper than its parent; on a cyclic one both are at the cap |
| Depth.OrderUnique | internal/discover/group.go:204-206 | a group has one order by depth and PID |
| Depth.ParentPrecedesIff | internal/discover/group.go:204-206 | a parent precedes its child exactly when the chain of the child is acyclic or the parent has the smaller PID |
| Depth.SortMembers | internal/discover/group.go:200-206 | whatever order the map yields, the result lists each member once by depth and then PID |
| Group.Refuse | internal/discover/group.go:208-227 | the first protected member in order is refused by PID and name, then any member in portpin's chain; otherwise each member becomes its metadata, the target its own |
| Group.GroupMembers | internal/discover/group.go:138-228 | the answer is the group or the refusal of the specification, on every table with distinct PIDs on which the climb ends |
| Group.GroupUnique | internal/discover/group.go:138-228 | the specification allows one answer only |
| Group.GroupIgnoresTableOrder | internal/discover/group.go:138-228 | the answer, which refusal and which PID included, is the same for every permutation of the table |
| Group.GroupShape | internal/discover/group.go:200-227 | a successful answer lists exactly the members, each under its own PID, in order |
| Group.TargetIsMember | internal/discover/group.go:146-227 | the group of a live target holds the target with its own metadata, and no PID twice |
| Group.GroupIsSafe | internal/discover/group.go:126-217 | no member is PID 1, has parent 0, or is portpin or an ancestor of it |
| Group.HarmlessIff | internal/discover/group.go:146-149 | an answer is free of PID 1 and portpin's chain exactly when the target is live or is itself neither |
| Group.UnseededHasParent | internal/discover/group.go:183-192 | a member that is not seeded is a valid child of another member and a valid descendant of the target |
| Group.GroupSparesDaemons | internal/discover/group.go:128-182 | with process groups no member but the target is a child of PID 1, and any other session leader is a valid descendant of the target |
| Group.TreeGroupIsReachableSet | internal/discover/group.go:161-192 | without process groups the group is exactly what the climbed root reaches |
| Group.ParentsComeFirst | internal/discover/group.go:193-227 | in a successful group a parent precedes its child, unless the chain is cyclic and the PIDs say otherwise |
| Membership.StaleIsAnsweredWithItself | internal/discover/group.go:146-149 | a target that is not in the table, or whose start time there is not the one discovery knew, is answered with itself, and with nothing else |
| Membership.DaemonRefusedIff | internal/discover/group.go:172-175 | a daemon refusal is given exactly when the process group of a live target is led by another process that leads a session or hangs on PID 1, and it names that process |
| Membership.DaemonRefusedOnly | internal/discover/group.go:172-175 | then no other answer is given |
| Membership.MembersGather | internal/discover/group.go:171-192 | the rows gathered are the least set with the root, the rows of the process group that did not set out on their own, and the offspring, not older, of the root and of any row outside the process group |
| Membership.ClimbMovesIff | internal/discover/group.go:161-169 | the climb moves to the parent exactly when that is another process outside portpin's chain, climbable, of known start time and not younger |
| Membership.ChainIsLeast | internal/discover/group.go:151-159 | portpin's chain is the least set with portpin and the parents of its rows |
| Membership.Verdict | internal/discover/group.go:208-227 | otherwise the rows gathered decide: PID 1 or a parentless row refuses the group, naming the first; else a row of portpin's chain does; else every row is listed with its PID, parent, name and start time, the target as it was given |
| Membership.OrderByChains | internal/discover/group.go:193-206 | members stand by the number of links to the first parent outside the group, and then by PID |
| Kernel.EvolutionKeeps | internal/pin/pin_linux.go:43-54 | any number of exits, reaps, starts and socket events keeps the hypotheses, and no reaped instance returns |
| Kernel.Sandwich | internal/pin/pin_linux.go:46-49 | equal start times before and after mean one instance held the PID throughout, so it is the one opened in between |
| Kernel.PassedOn | internal/pin/pin_linux.go:92-97 | unequal start times mean the PID is now held by an instance that started since |
| Kernel.OneReadIsNotEnough | internal/pin/pin_linux.go:56-92 | when discovery knew no start time, one read after the open is accepted although it is about another instance than the one opened |
| Kernel.OneReadIsEnoughWhenKnown | internal/pin/pin_linux.go:56-92 | when discovery knew the start time of an instance, one later read that agrees shows that it was that instance which was opened |
| Kernel.GuardedRecipient | internal/pin/pin_linux.go:134-145 | after the start time under a PID was read, a signal to the PID reaches the instance that was read exactly when that has not been reaped, and otherwise one that started since |
| Kernel.BareKillMayMiss | internal/pin/pin_linux.go:134-145 | a run in which the start time agrees and the signal still reaches another process |
| Kernel.NeverAnotherIff | internal/pin/pin_linux.go:118-145 | nobody but the pinned process is ever signalled exactly when the pin is a pidfd |
| Kernel.ZombieHoldsNothing | internal/pin/pin_linux.go:159-183 | whoever holds a PID as a zombie holds no socket |
| Kernel.ZombieMayBeAnother | internal/pin/pin_linux.go:159-183 | a run in which the pinned instance is reaped and a zombie holds its PID |
| Kernel.ReadIsAboutPinnedIff | internal/pin/pin_linux.go:159-183 | what is read under the PID of an instance is about that instance exactly when it has not been reaped, and exactly when the start times agree |
| Machine.Machine.ReadStartTime | internal/pin/pin_linux.go:56-62 | the start time of whoever holds the PID at some instant of the call |
| Machine.Machine.PidfdOpen | internal/pin/pin_linux.go:67-80 | a fresh descriptor that names the instance holding the PID at that instant |
| Machine.Machine.PidfdSendSignal | internal/pin/pin_linux.go:118-129 | the signal reaches the named instance, or nobody once that is reaped |
| Machine.Machine.RawKill | internal/pin/pin_linux.go:143-153 | the signal reaches whoever holds the PID at that instant |
| Machine.Machine.ReadLifecycle | internal/pin/pin_linux.go:159-183 | a zombie report is about whoever holds the PID, who then holds no socket, and gone means that nobody does |
| Machine.Machine.Resolve | internal/discover/discover_linux.go:73-99 | each owner reported held its endpoint in a state of the kernel between the beginning and the end of the call, and other instances known under its PID are gone by the end |
| Machine.SeenSupersede | internal/discover/discover_linux.go:73-99 | once an instance was seen under a PID, every other instance known under it is gone for good |
| Machine.ChronicleOrder | internal/pin/pin_linux.go:55-154 | every fact of a journal holds in the state it is dated with, and the kernel evolved from each fact to the next and to the present |
| Machine.TallySince | internal/pin/pin_linux.go:111-154 | the signals delivered since any earlier point are exactly those that the requests since then report taken |
| Pinning.Pin | internal/pin/pin_linux.go:55-101 | a controller pins the one instance whose start time is the controller's and, when known, discovery's; every failure leaves no descriptor open; an identity error means another process than discovery's or one that started during the call; the system calls made and what they returned, errno by errno, decide the result |
| Pinning.LinuxController.SendSignal | internal/pin/pin_linux.go:111-154 | a valid controller with a pidfd signals its instance or nobody; without one the recipient has the pinned start time or started since the call began; a closed one signals nobody and makes no system call; the system calls made and what they returned, errno by errno, decide the error |
| Pinning.LinuxController.SendRaw | internal/pin/pin_linux.go:134-153 | without a pidfd the start time agrees in a state of the call and the signal goes to whoever holds the PID in a later one: an instance with that start time, or one that started since the call began |
| Pinning.LinuxController.Close | internal/pin/pin_linux.go:187-198 | the first Close closes the descriptor, later ones do nothing |
| GroupErrors.OtherReplyIsFirst | internal/pin/group.go:53-61 | of the other members, the first error that is not ignorable is kept |
| GroupErrors.PrimaryErrorWins | internal/pin/group.go:51-66 | an error of the primary other than process-gone always wins; otherwise the first that matters of the others, else the primary's |
| GroupErrors.SeriousErrorIsReported | internal/pin/group.go:51-66 | when the primary was stopped or is gone, the first other member that was refused or failed otherwise is reported |
| GroupErrors.OtherErrorsAreNot | internal/pin/group.go:51-66 | that another member is gone, was replaced or has no console is never reported |
| GroupErrors.GroupRunsLikePrimary | internal/pin/group.go:47-72 | with the primary listed once and only ignorable errors elsewhere, a run over the group makes the calls and has the result of a run over the primary |
| Grouping.PinGroup | internal/pin/group.go:14-45 | the members are a subsequence of the metas and the PIDs are theirs, the primary at its own place, or last when not named; only gone or replaced members are skipped; the pin calls made are those of the other metas; on failure every controller pinned here is closed once and the primary is left open |
| Grouping.CloseEach | internal/pin/group.go:74-82 | every controller is closed as often as it is listed, and no descriptor of theirs stays open |
| Grouping.KeptAscends | internal/pin/group.go:18-39 | the kept members keep their order, and each meta that was not skipped is kept |
| Grouping.GroupCounts | internal/pin/group.go:14-45 | every controller of a group is listed once, and the primary as often as the metas list its PID, or once when they do not |
| Grouping.TwiceListed | internal/pin/group.go:18-23 | a group that names its primary twice lists it twice |
| Grouping.GroupIsLed | internal/pin/group.go:18-43 | the primary is a member, and no other member has its PID |
| Escalation.SpentClosed | internal/terminate/terminate.go:94-104 | after i rounds 25, then 75, then 75 plus 100 for each further round have been slept |
| Escalation.RoundsUseUpBudget | internal/terminate/terminate.go:211-227 | a wait stops at the first round that uses up its budget, less than 100 ms beyond it |
| Escalation.InvariantHolds | internal/terminate/terminate.go:112-208 | in every state of every run: which calls were made, what they answered, and how long was slept |
| Course.AcceptsIffDutiful | internal/terminate/terminate.go:112-227 | the accepted logs are exactly those that make, after the calls so far, the call that is due by them: first a probe, then Graceful or with force Hard, then sleeps of 25, 50 and 100 ms with a probe after each until the budget that the answer chose is used up, then Lifecycle, then Hard; and they end, with the outcome, cause, PID and flags, exactly when nothing is due |
| Course.ErrorEndsTheRun | internal/terminate/terminate.go:128-196 | an error of Graceful or Hard that the escalation does not provide for is the last answer, and decides outcome and cause: changed, denied, or else failed |
| Course.FailedProbeEndsTheRun | internal/terminate/terminate.go:119-123 | so is a probe that failed, with its error as the cause |
| Course.LastCallTells | internal/terminate/terminate.go:112-208 | changed, denied and zombie exactly when the last call said so; the cause is the error in the last call, and there is none exactly for released, zombie and timeout |
| Escalation.DoneIsFinal | internal/terminate/terminate.go:112-208 | nothing is called after the result is known |
| Escalation.CallDiscipline | internal/terminate/terminate.go:112-208 | Graceful at most once and second, Hard at most once and after it, Lifecycle at most once; the flags record the calls; the PID is the controller's |
| Escalation.SignalsOnlyWhileHeld | internal/terminate/terminate.go:118-181 | a signal comes only after every probe so far said held, and the hard kill only if no zombie was seen |
| Escalation.OutcomeMeaning | internal/terminate/terminate.go:119-207 | Released only if the last probe said free; zombie exactly when the last call saw one; Timeout only after the hard kill and held throughout, last probed exactly when the hard wait is positive |
| Escalation.TimeoutMayBeUnprobed | internal/terminate/terminate.go:198-207 | with a hard wait that is not positive a run times out right after the kill |
| Escalation.ZombieMayFollowHeld | internal/terminate/terminate.go:170-176 | a concrete run reports a zombie although its last probe said held |
| Escalation.ZombieFollowsFreeIff | internal/terminate/terminate.go:170-176 | a zombie report always follows a free probe exactly for options that skip the graceful stage |
| Escalation.ChangedMayFollowASignal | internal/terminate/terminate.go:185-188 | a concrete run reports an identity change after a delivered signal |
| Escalation.RunIsBounded | internal/terminate/terminate.go:112-227 | a run sleeps less than the larger graceful budget plus the hard budget plus 200 ms, and probes once per round at most |
| Escalation.DefaultRunIsBounded | internal/terminate/terminate.go:74-83 | with the defaults at most 3075 + 1075 ms and 45 probes |
| Escalation.DefaultTimeout | internal/terminate/terminate.go:74-83 | a default run that times out slept 1075 ms after the kill |
| Escalation.HardWaitIsUsedUp | internal/terminate/terminate.go:198-207 | a timed-out run slept at least the hard budget and less than 100 ms more after the kill |
| Escalation.GraceWaitIsUsedUp | internal/terminate/terminate.go:129-173 | the same of the graceful wait that ran out, with the budget that the answer to Graceful chose |
| Escalation.SameAnswersSameRun | internal/terminate/terminate.go:112-208 | the calls and the result are a function of the answers |
| Conduct.EverybodyIsAskedOnce | internal/terminate/terminate.go:112-208 | over the requests really made: every process is asked to stop once or not at all, and to die once or not at all, each time all of them in order, and the two flags of the result record which and with what answer |
| Conduct.AskedOnlyWhileHeld | internal/terminate/terminate.go:118-181 | a process is asked only after a lookup, and while every lookup so far told held; to die only if no zombie was reported; and to stop never after one was asked to die |
| Conduct.AskedInOrder | internal/pin/group.go:51-69 | two requests with one signal come in the order in which their processes stand in the group |
| Outcomes.AnswerEndsTheRun | internal/terminate/terminate.go:128-196 | over the requests really made: when the processes asked answer with an error the escalation does not provide for, these requests are the last, and the error decides outcome and cause |
| Outcomes.FailedLookupEndsTheRun | internal/terminate/terminate.go:119-123 | a lookup that failed is the last request, and its error is the cause of the failure |
| Outcomes.RunTakes | internal/terminate/terminate.go:112-227 | a run sleeps less than the larger graceful budget plus the hard budget plus 200 ms, and looks the port up once per round at most |
| Endpoint.PortAtTheEnd | internal/terminate/terminate.go:119-207 | released means that the last lookup reported none of the processes at the endpoint; a timeout that every lookup reported one and that every process was asked to die |
| Endpoint.ReleasedMeansFreeIff | internal/terminate/terminate.go:119-207 | of a released run: the last lookup reported nobody at the endpoint exactly when it reported no stranger there |
| Endpoint.ReleasedMayBeHeld | cmd/portpin/main.go:402-414 | a concrete released run whose only lookup reports another process at the endpoint |
| Endpoint.ZombieLetsGo | internal/terminate/terminate.go:170-176 | in the state a zombie is reported of, its process holds the endpoint no more |
| Endpoint.ZombieMeansLetGoIff | internal/terminate/terminate.go:170-176 | at every zombie report none of the processes holds the endpoint exactly when the options skip the graceful stage or the zombie is the only process |
| Endpoint.ZombieMeansUnheldIff | internal/terminate/terminate.go:170-176 | at every zombie report nobody at all holds the endpoint exactly when the options skip the graceful stage |
| Endpoint.ZombieWhileHeld | internal/pin/group.go:71-71 | concrete runs report a zombie while another member of the group, or a child, holds the endpoint |
| Outcomes.PidfdsNeverChange | internal/pin/pin_linux.go:118-129 | processes held by pidfds are never reported as changed |
| Outcomes.ChangedMeansUntouchedIff | internal/terminate/terminate.go:142-188 | over all runs of a crew: an identity change implies that no signal was taken exactly when the processes are held by pidfds, or one process is killed at once |
| Outcomes.ForcedGroupMayBeTouched | internal/pin/group.go:51-66 | a concrete forced run over a group kills a member and reports a changed identity with nothing sent |
| Teardown.ProbePort | cmd/portpin/main.go:402-414 | one lookup and nothing else is made, and held is answered exactly when it reports an owner at this endpoint with one of the PIDs |
| Teardown.Each | internal/pin/group.go:51-66 | every member is asked exactly once, in order, whatever the others answer, and the errors combine as specified |
| Teardown.Send | internal/pin/group.go:68-69 | Graceful and Hard of either kind of controller ask all of its processes in order, make no other request, and answer what they answered |
| Teardown.Examine | internal/pin/group.go:71 | Lifecycle asks once, about the primary; a zombie it reports is the pinned process exactly when that has not been reaped, and nobody under its PID holds a socket |
| Teardown.WaitForRelease | internal/terminate/terminate.go:211-227 | the requests made are those of the sleeps and probes of a wait, from its start to release, failure or the end of its budget |
| Teardown.Run | internal/terminate/terminate.go:112-208 | the requests Run makes are exactly those of an accepted run with its result, none left over, and every signal it sends is justified |
| Vetting.RecipientsAreVetted | cmd/portpin/main.go:385-415 | each recipient was aimed at through a controller pinned for it, after the endpoint was seen held, and has its start time or started since everything seen before; with pidfds it was pinned, then the endpoint was seen held, under its own PID by nobody else, and only then it was signalled |
| Vetting.OnlyHoldersAreSignalled | cmd/portpin/main.go:385-415 | for one process with a pidfd, whoever is signalled was pinned, in a later state of the kernel held the endpoint, and in a still later one was signalled; and it is the process discovery meant |
| Vetting.MeantOrNewer | internal/pin/pin_linux.go:134-145 | with or without pidfds each recipient is a process discovery meant, or started since any fact before the signal that one chooses |
| KillOne.KillOne | cmd/portpin/main.go:385-436 | on every path the descriptors are restored and each controller a pin call returned is closed, exactly once exactly when the target's PID is listed once at most; the signals delivered are those the requests report taken, none after a failed pin and none when an identity change says so truly; a zombie found has let the endpoint go; after a failed pin the result is released, changed, denied or failed exactly as the error of the last pin says, with that error as the cause unless the process was gone; otherwise it is that of an accepted run over exactly the requests made; every recipient is vetted, as far as its pin allows |
| KillOne.CrewLists | internal/pin/group.go:14-45 | without a group the target is asked; with one the members that were pinned, in the order of the group, and last the target when the group does not name it |
| Order.NobodyIsAskedTwice | internal/pin/group.go:18-43 | in the group of a live target the processes asked are the kept members in order, the target among them and nobody twice |
| Order.SurvivingParentsAreAskedFirst | internal/pin/group.go:51-69 | from the process table to the requests of a whole run: a surviving parent is asked to stop, and to die, before its surviving child, unless the chain of the child is cyclic |
| Owners.LastHolderSeen | internal/discover/discover_linux.go:222-246 | a walk reports the last process seen with the inode, and none exactly when nobody was |
| Owners.OwnerStays | internal/discover/discover_linux.go:165-180 | an owner once found is never overwritten |
| Owners.UnownedMeansUnseen | internal/discover/discover_linux.go:160-180 | an inode has no owner exactly when no walk saw it |
| Owners.ScanOwners | internal/discover/discover_linux.go:216-248 | a walk finds exactly the wanted inodes that some process shows |
| Owners.FindOwners | internal/discover/discover_linux.go:160-180 | up to six walks, stopping early without losing anything; fails exactly when a walk that is made fails |
| Owners.LaterWalksAddNothing | internal/discover/discover_linux.go:165 | once every inode is matched, further walks would change nothing |
| Owners.OwnerIsFirstSeen | internal/discover/discover_linux.go:160-180 | the owner is whom the first of six walks that saw the inode showed last, the sixth included; the rest of the binding is untouched |
| Owners.WalkedIff | internal/discover/discover_linux.go:165-180 | the first walk is always made, the next five exactly while a wanted inode was seen by none before, and no further one |
| Owners.FailsIff | internal/discover/discover_linux.go:149-193 | it fails exactly when a walk that is made fails, or when six walks left a wanted inode unseen and the fresh tables cannot be read |
| Owners.VanishedExactly | internal/discover/discover_linux.go:182-193 | a binding is dropped exactly when its non-zero inode was seen in none of the six walks and is gone from the fresh tables |
| Owners.AttachedIsSubsequence | internal/discover/discover_linux.go:195-211 | the result is the input without the vanished bindings, in order, each with its owner |
| Owners.UnidentifiedStay | internal/discover/discover_linux.go:196-200 | a binding without an inode is returned untouched |
| Owners.AttachOwners | internal/discover/discover_linux.go:149-212 | the result is that subsequence or the failure, and the owners are written into the input in place |
| Resolving.AttachedOwnersHeld | internal/discover/discover_linux.go:149-248 | every owner reported held its endpoint in a state of the lookup: what a lookup promises, from what the tables and the walks showed |
| InetDiag.ParseInetDiag | internal/discover/inetdiag.go:43-72 | the loop computes the specified parse of every byte string and ends |
| InetDiag.RowsFitBytes | internal/discover/inetdiag.go:43-72 | every row takes up 88 bytes of its own, so a parse of n bytes has at most n / 88 rows |
| InetDiag.ParseInvertsEncode | internal/discover/inetdiag.go:43-72 | parsing encoded frames, all padded but perhaps the last, gives what the frames mean, however single frames are judged |
| InetDiag.RowsUpToTerminator | internal/discover/inetdiag.go:51-68 | the rows come out in order up to the first frame that ends or fails the parse, which decides how it ends |
| InetDiag.EndAndErrorMessages | internal/discover/inetdiag.go:51-61 | message 3 ends a dump, message 2 fails it with the errno it carries as a negative, ends it when that is 0, and is truncated below four bytes |
| InetDiag.RowMessages | internal/discover/inetdiag.go:62-67 | any other message is a row exactly when it has 72 bytes and family 2 or 10, and truncated otherwise |
| InetDiag.BrokenTail | internal/discover/inetdiag.go:45-50 | fewer than 16 bytes are left alone, and a header that claims less than itself or more than there is fails the parse after the rows before it |
| InetDiag.ReceiveErrorEnds | internal/discover/netlink_linux.go:59-65 | a receive that fails ends a dump with its errno |
| InetDiag.DiagDump | internal/discover/netlink_linux.go:53-75 | the loop computes the specified result and leaves the specified replies unread, over every series of replies; a request that could not be sent is the error of the dump |
| InetDiag.SplitDoesNotMatter | internal/discover/netlink_linux.go:57-74 | however frames are split over datagrams, with any interruptions, the dump is what the frames mean in one piece |
| InetDiag.SplitsAgree | internal/discover/netlink_linux.go:57-74 | two ways of splitting the same frames give the same dump |
| Netlink.NetlinkRows | internal/discover/netlink_linux.go:23-51 | the loop computes the four dumps over one stream of replies, passing over failed IPv6 dumps |
| Netlink.FourDumps | internal/discover/netlink_linux.go:23-51 | TCP over both families, then UDP over both; a failed IPv4 dump fails the table with its error, a failed IPv6 dump contributes no rows, and the rows stand in this order with their protocols |
| Netlink.NextStartsRightIff | internal/discover/netlink_linux.go:53-75 | the next dump starts with its own replies exactly when this one uses its replies up |
| Netlink.OwnRows | internal/discover/netlink_linux.go:23-51 | when every dump uses up its replies, the dumps over one stream return what they would return apart |
| Netlink.TerminatedUsesUp | internal/discover/netlink_linux.go:57-74 | a dump whose end comes in its last datagram uses its replies up |
| Netlink.LeftoverRow | internal/discover/netlink_linux.go:39-45 | a concrete stream on which a TCP row comes out as a UDP row |
| ProcNet.Reverse4 | internal/discover/procnet.go:155-157 | the four bytes are reversed in place and the others kept |
| ProcNet.ReverseWords | internal/discover/procnet.go:139-141 | in place, every group of four is reversed |
| ProcNet.WordsReversedTwice | internal/discover/procnet.go:112-117 | reversing the words twice changes nothing |
| ProcNet.ParseHexAddrPort | internal/discover/procnet.go:120-153 | the specified endpoint, or nothing for a missing colon, a wrong length, a foreign digit or a port that does not fit |
| ProcNet.ParseLine | internal/discover/procnet.go:49-79 | the specified row, or nothing for a short line or a field that does not parse |
| ProcNet.RowReadIff | internal/discover/procnet.go:49-79 | a line is read exactly when it has ten words, both endpoints have 8 or 32 hexadecimal digits, a colon and a port below 65536, the state is hexadecimal below 256, and UID and inode are decimal below 2^32 and 2^64 |
| ProcNet.FilterMapSkip | internal/discover/procnet.go:33-36 | a line that does not parse hides no other, wherever it stands |
| ProcNet.ParseProcNet | internal/discover/procnet.go:37-85 | the rows of all lines but the first that parse, in order, or the error of the reader |
| Text.FieldsInvertLayout | internal/discover/procnet.go:49 | splitting a line gives back its words, whatever spaces separate them |
| Text.ParseInvertsHex | internal/discover/procnet.go:61-64 | a zero-padded hexadecimal number is read back |
| Text.ParseInvertsDecimal | internal/discover/procnet.go:65-72 | a decimal number is read back |
| Text.HexDecodeWord | internal/discover/procnet.go:110-117 | a little-endian word printed in hexadecimal is read as its bytes in reverse |
| Sources.AddressColumnDecodes | internal/discover/procnet.go:112-141 | an address column is read as the address with every word reversed |
| Sources.EndpointDecodes | internal/discover/procnet.go:120-153 | an endpoint printed by the kernel is read back, v4 and v6 |
| Sources.LineDecodes | internal/discover/procnet.go:49-104 | a line that shows a socket is read as the row of the socket, whatever the other columns and spaces: for TCP with its state by the kernel's number, or other, for UDP listening exactly without a peer |
| Sources.MessageDecodes | internal/discover/inetdiag.go:74-102 | an inet_diag message of a socket is read as the row of the socket, with the same states, whatever its other bytes and attributes |
| Sources.SourcesAgree | internal/discover/discover_linux.go:40-71 | the same list of sockets, dumped in any datagrams or printed in any layout below any header line, gives the same rows from both sources, for TCP and UDP, v4 and v6 |
| SockRows.NormIgnoresSpelling | internal/discover/sockrow.go:219-224 | zones and the v4-mapped form do not tell endpoints apart, and normalising twice changes nothing |
| SockRows.KeysAgreeIff | internal/discover/sockrow.go:210-224 | two rows have one key exactly when protocol, both ports and both addresses agree, up to zones and the mapped form |
| SockRows.UnownedRows | internal/discover/sockrow.go:226-241 | a row stays exactly when as many rows of its key precede it as are owned |
| SockRows.UnownedDropsOwned | internal/discover/sockrow.go:231-240 | of every key the first rows go, as many as are owned, and the others stay in order |
| SockRows.UnownedCounts | internal/discover/sockrow.go:226-241 | max(0, table - owned) rows of every key stay |
| SockRows.UnownedIsSubsequence | internal/discover/sockrow.go:231-240 | the rows that stay are the rows of the table at ascending positions, exactly those whose key is used up |
| SockRows.RecheckIntersects | internal/discover/discover_darwin.go:89-90 | the two nested calls leave, of every key, the last min(orphans, fresh) rows |
| MacListing.ListOwned | internal/discover/discover_darwin.go:60-74 | the wanted owned rows in order, each process described once, as its first row finds it |
| MacListing.Collect | internal/discover/discover_darwin.go:50-96 | the specified listing, or the first failure met; the second table is only read, and can only fail the call, when some orphan is not in TIME_WAIT |
| MacListing.ListingShows | internal/discover/discover_darwin.go:46-96 | a listing is the wanted owned rows in order, each with its local endpoint, protocol, state and the process as its first wanted row finds it, and after them the ownerless rows in order, without a process |
| MacListing.ListingFailsIff | internal/discover/discover_darwin.go:50-91 | it fails exactly with the error of the first table, else of the owned rows, else, when a wanted row that nobody owns is not in TIME_WAIT, of the second table |
| MacListing.OwnerlessAreOrphans | internal/discover/discover_darwin.go:76-94 | without a second table all wanted rows that nobody owns are listed, in their order |
| MacListing.OwnerlessPerKey | internal/discover/discover_darwin.go:76-94 | of every key the listing has the wanted rows beyond the owned ones, cut to the last that the second table still shows when a recheck is made |

## Left out

- System calls, walking `/proc`, running `lsof` and `netstat`, IPHlpAPI and
  kqueue: replaced by the kernel transition system or by oracles.
- The Windows and macOS controllers, console detaching and restoring, and stdout
  buffering: they are sequences of foreign calls whose meaning the repository
  does not define.
- Command-line parsing, prompts, tables, JSON, advice, exit codes and `waitFor`:
  they present the results proved here or select the bindings to tear down, and
  decide nothing about who is signalled afterwards.
- `ParseLsof`, `ParseNetstat`, `ParseProcArgs`, `DecodeWinTable`, `foldRows`,
  `uniqueProcesses`: the decoders of the macOS and Windows tables are not
  modelled; their rows enter `MacListing` and the process table as inputs.
- `splitArgs`, `runsNpm`, `boundary` and the tables of names behind `climbable`:
  the graph proofs hold for every predicate.
- `Filter.Matches` and `NarrowToExactMatch`: which bindings are wanted is an
  arbitrary predicate.
- `InetDiagRequest` and the socket of `netlinkRows`: the replies, and whether the
  socket opens and the requests are sent, are inputs.
- `bufio.Scanner`: a table is the lines it delivers and the error it ends with.
- Controllers are a single pinned process or a group of them, a datatype of two
  cases in place of the Go interface.
- The mutex of a controller: one thread uses it.
- The order that `slices.SortFunc` visits members in: an insertion sort with the
  same comparison stands for it; the result is unique by `Depth.OrderUnique`.
- Group.GroupMembers: requires that the climb gets into no loop, because otherwise the code does not return; `ProcGraph.ClimbHaltsIffNoLoopAbove` says that this is exactly the case.
- KillOne.KillOne: without pidfds it does not say that a recipient is the pinned process or was itself seen, because the raw-PID fallback leaves a race between its check and its kill; it says that the start time agreed or the recipient started since.
- Pinning.LinuxController.SendSignal: without a pidfd it only says the same of its recipient, for the same reason.
