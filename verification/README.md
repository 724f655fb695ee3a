# ETroute verification

Dafny models of the parts of ETroute whose correctness does not show in any single function, and
proofs of what those parts promise. To check everything: `dafny verify dfyconfig.toml`.

## What is modelled

**The native process supervisor** (`Descriptors`, `Posix`, `ProcessTree`, `LeaderProgram`, `World`,
`Kernel`, `Supervisor`, `Theorems`). `World` is a transition system: the clock, the supervisor's
descriptor table with lowest-free allocation, the error pipe and every holder of its write end, the
forked leader as a program of nine setup steps with what each gives the kernel (limits, working
directory, the arguments of execve), and its descendants with process groups, pending
signals, wait statuses and forks. An `Event` is one step of anything that is not the supervisor.
`Kernel` is the supervisor's side of the system calls: between any two of them an arbitrary schedule of
events runs, and every call may fail, be interrupted, or come up short. `Supervisor` is the C++ code,
method by method and loop by loop, over those calls; its only entry point `RunProcess` ends in
`Outcome`, which says what every field of the result means in the world it is returned in. `Theorems`
draws from `Outcome` and from the invariant what a caller relies on. The kernel calls whose answers a
result has to account for are recorded in `World.calls`, every signal with its time, its answer and the
processes it found; nothing reads that log but specifications. `Kernel.DeliveryIsAsLogged` and the
contracts of `KillGroup` and `KillLeader` tie a logged signal to the processes it reaches.

**The boundary above it** (`Jni`): seven 64-bit fields packed in C++, unpacked in Kotlin; the launch on
its way down; and `Jni.Run`, the whole way from a Kotlin launch to a Kotlin result.

**Session containment and finalization** (`Strings`, `Paths`, `Sessions`, `Finalizer`): containment by
string prefix on canonical paths against containment by component lists, session creation and launch
validation, and the finalizer with its short-read loop, over deletions, listings, reads and writes that
may fail part way.

**Root file system installation** (`Installer`, `InstallerSettled`, `InstallerLooks`, `InstallerRaces`,
`Installation`): any number of installers as a protocol of file-system operations, interleaved in any
order, each of which may fail or be the installer's last; and `install_rootfs` itself as a method that
makes those operations while the other installers go on.

**Encodings that must be unambiguous** (`Ordering`, `Encodings`, `TreeStream`, `PurePaths`, `Binds`,
`LaunchSpec`, `ProotArgv`): the length-prefixed source-tree stream, the bind syntax, and the PRoot
argument vector, each with a decoder.

## Main results

- `Supervisor.RunProcess`, `Theorems.SucceededExactly`, `Theorems.FirstFailureIsReported`,
  `Theorems.TruncationIsNeverMisread`: every field of every result, under every schedule.
- `Theorems.EverySignalIsAccounted`, `Theorems.LeaderIsTerminated`, `Theorems.LeaderMissedExactly`,
  `Theorems.StoppedRunsAreContained`, `Theorems.StoppedForGood`, `Theorems.GraceIsGiven`: whom the signals
  reach, when, and what is left afterwards.
- `Theorems.ImageRunsAsAsked`, `Jni.Run`, `Jni.EveryOutcomeCrosses`: that what is launched is what runs, and
  the same as above seen from Kotlin.
- `Installer.FinalIsAlwaysSound`, `Installer.InstalledIsKeptForGood`, `InstallerSettled.StaysExactly`,
  `InstallerLooks.TakesAwayExactly`, `Installation.Disk.InstallRootfs`, `Installation.InstallingTwice`: any
  number of installers, and one after another.
- `Sessions.AcceptedLaunchStaysInItsSession`, `Finalizer.Session.Finalize`, `Finalizer.ReadPrefix`.
- `TreeStream.SameStreamExactly`, `Binds.RoundTripExactly`, `ProotArgv.ArgvDecodes`,
  `ProotArgv.BuildProotArgv`: the encodings.

## What comes out

Some expected properties do not hold of the code as it is. Each has its exact condition, and where it
helps a run that shows the failure.

- The executed image has descriptors 1 and 2 bound to the output files exactly when the supervisor was
  itself started with 1 and 2 open. Descriptor 0 does not matter (`Descriptors.RedirectionExactly`).
- In a timed-out run SIGTERM misses a running leader exactly when the leader may not be signalled, or has
  moved itself to another group and its old one is gone or answers for it (`Theorems.LeaderMissedExactly`);
  one that has not moved is never missed (`Theorems.GroupedLeaderIsReached`). If the group is gone, a
  leader that runs elsewhere is never signalled at all (`Theorems.MovedLeaderIsMissed`), and the last
  blocking wait can hold `run_process` past its time. That wait has no other reason to last
  (`Supervisor.WaitForKilledLeader`).
- After a timeout the group holds only processes that are dead, have SIGKILL pending, may not be
  signalled by the supervisor, or have come back to the group after leaving it
  (`Theorems.StoppedRunsAreContained`). Without such a return nothing in it ever runs again, whatever
  happens (`Theorems.StoppedForGood`).
- The containment test agrees with the component prefix test except for the root directory, of which
  it takes nothing but the root itself to be inside (`Paths.IsWithinExactly`).
- `docs/ETROUTE_CONTEXT.md` lines 13 and 48 say that installation is atomically activated. The code
  activates by two renames. Between them the final path is empty, and a crash there leaves the old
  environment in the backup only (`Installation.GapExactly`, `InstallerRaces.CrashLosesFinal`).
- Without any failure, an installation that has reported success can be undone by two others
  (`InstallerRaces.SuccessCanBeUndone`). It stays at the final path in every run exactly when no installer
  under way can still reach its first rename and carry it out (`InstallerSettled.InstalledStaysExactly`).
  What is kept in any case is kept at the final path or in a backup (`Installer.InstalledIsKeptForGood`).
- An installer that was not asked to replace can take away and delete what another has installed
  (`InstallerRaces.DeletedWithoutReplace`): it does so exactly when its first look finds nothing, its
  second look finds something and its rename works (`InstallerLooks.TakesAwayExactly`).
- An installation whose deletion of the backup fails raises although the new environment is in place
  (`Installation.Disk.InstallRootfs`, `Installation.RaisedAt`).
- Validating a launch specification twice changes it exactly when a kernel release of nothing but
  blanks was given; the argument vector never changes (`LaunchSpec.RevalidationExactly`,
  `ProotArgv.RevalidationKeepsArgv`).
- A written bind reads back exactly when its host holds no colon and its guest does not end in the mark
  unless it carries it (`Binds.RoundTripExactly`).

## Model

| member | source | states |
|---|---|---|
| Descriptors.WiringAscends | native/src/native_supervisor.cpp:259-276 | the four descriptors opened before the fork are fresh and ascending whatever was open, so the report end is never 0, 1 or 2 |
| Descriptors.ImageInheritsNothingElse | native/src/native_supervisor.cpp:299-336 | with 1 and 2 open at entry the image starts with what it would have inherited, 1 and 2 replaced, and no other descriptor of the supervisor |
| Descriptors.OutputFirst | native/src/native_supervisor.cpp:323-331 | between the two dup2 steps descriptor 1 is already the output file, whatever was open at entry |
| Descriptors.RedirectionExactly | native/src/native_supervisor.cpp:323-334 | the image's 1 and 2 are the output files if and only if 1 and 2 were open at entry |
| Descriptors.ClosingRestores | native/src/native_supervisor.cpp:267-295 | on every way out, closing what was opened restores the entry table |
| Descriptors.ClosesWhatIsOpen | native/src/native_supervisor.cpp:267-351 | each close, in the order of each way out, is of a descriptor open at the time; the kernel's close demands it, so each is closed exactly once |
| Descriptors.ReportEndLivesUntilExec | native/src/native_supervisor.cpp:276-340 | the child holds the report end through all its setup steps and execve always closes it |
| Posix.StatusWordDecodes | native/src/native_supervisor.cpp:143-151 | the exit and signal macros on a wait status word give back the code or the signal, never both |
| Posix.IntBytesDecode | native/src/native_supervisor.cpp:74-80 | four bytes of an int as it lies in memory give back the int |
| Posix.RecordDecodes | native/src/native_supervisor.cpp:68-80 | the eight bytes of a failure record give back its stage and its error |
| ProcessTree.TreeStepIsLater | native/src/native_supervisor.cpp:153-163 | a contained group stays contained and an empty one empty under every step of its members |
| ProcessTree.TreeStepKeepsLeaderGroup | native/src/native_supervisor.cpp:346 | no step but the leader's own takes the leader out of its group |
| LeaderProgram.WriteKeeps | native/src/native_supervisor.cpp:79-99 | after any short writes the pipe holds exactly a prefix of the one record |
| LeaderProgram.HoldsReportEndUntilExec | native/src/native_supervisor.cpp:276-340 | the leader has the report end open if and only if it is not past execve |
| LeaderProgram.FailureCodesAreNotZero | native/src/native_supervisor.cpp:303-339 | every failure exit code is between 121 and 127 |
| LeaderProgram.FailuresTellSteps | native/src/native_supervisor.cpp:301-339 | stages follow the program order and tell the failing step; exit codes tell it too, but for the two dup2 steps |
| World.StepKeeps | native/src/native_supervisor.cpp:286-446 | every event keeps the invariant |
| World.RunKeeps | native/src/native_supervisor.cpp:286-446 | so does every run |
| Kernel.KillContains | native/src/native_supervisor.cpp:158-163 | after SIGKILL to the group every member is dead, doomed or beyond the supervisor's permission, whichever answer kill gave |
| Kernel.NoWriterAfter | native/src/native_supervisor.cpp:342-350 | once the supervisor has dropped its own write end there is always a schedule in which the pipe comes to its end, so covering returning reads loses no run |
| Kernel.Kernel.Read | native/src/native_supervisor.cpp:112-138 | one read: some of the bytes next in the pipe, an end only when nothing is left and nobody holds a write end, or an error |
| Kernel.Kernel.Wait | native/src/native_supervisor.cpp:165-186 | one waitpid: the leader's status once, nothing yet, or an error that is logged |
| Kernel.Kernel.KillGroup | native/src/native_supervisor.cpp:158-159 | kill of the group: reached from the old world by others alone, there is the world it is made in; from what that becomes when exactly its permitted running members get the signal, the new world is reached by others alone; 0, ESRCH and EPERM mean a member that may be signalled, no member, and none that may be signalled |
| Kernel.Kernel.KillLeader | native/src/native_supervisor.cpp:161 | kill of the leader by itself, in the same way |
| Kernel.DeliveryIsAsLogged | native/src/native_supervisor.cpp:158-163 | after either kill exactly the processes the logged call hits have the signal pending besides what they had |
| Supervisor.DecodedReportsFate | native/src/native_supervisor.cpp:143-151 | the decoded fields say how the leader ended exactly when it was reaped: an exit code, or a signal, or neither |
| Supervisor.ReadChildFailure | native/src/native_supervisor.cpp:104-141 | the three answers are sound under every schedule of short reads, short writes and interruptions: a whole record is the leader's own, an empty pipe means it executed or died silently, a truncated one is EPROTO |
| Supervisor.NoWriterMeansDone | native/src/native_supervisor.cpp:124-130 | end of file means the leader is past execve or dead, and dead if it had begun a record |
| Supervisor.ProcessGroupExists | native/src/native_supervisor.cpp:153-156 | true exactly when the group is not empty, members that may not be signalled included |
| Supervisor.SignalProcessGroup | native/src/native_supervisor.cpp:158-163 | the group is signalled first, the leader by itself if and only if the group is there and refuses, both delivered as the kernel says; a group found gone is left alone; after SIGKILL the group is contained |
| Supervisor.ReapLeaderNonblocking | native/src/native_supervisor.cpp:165-186 | the status becomes known exactly when the leader is collected; a failed wait is reported |
| Supervisor.WaitForLeader | native/src/native_supervisor.cpp:219-232 | the blocking wait, repeated over interruptions: a status, or an error |
| Supervisor.WaitForKilledLeader | native/src/native_supervisor.cpp:218-233 | the blocking wait after a kill is entered only with a leader that is dead, has SIGKILL pending, may not be signalled or has left its group |
| Supervisor.ReapAndProbe | native/src/native_supervisor.cpp:199-209 | the early return is taken only when the leader is reaped and the group empty |
| Supervisor.AwaitGrace | native/src/native_supervisor.cpp:195-212 | SIGTERM first, at most grace/10 rounded up sleeps, and left early or after the whole grace period |
| Supervisor.TerminateProcessGroup | native/src/native_supervisor.cpp:188-234 | on return the group is contained; every signal is accounted for; SIGKILL went out only after the grace period, and nothing after SIGTERM if the group was gone; the leader is reaped or a wait failed; wait_error is that of the last failed wait other than ECHILD |
| Supervisor.FinishReported | native/src/native_supervisor.cpp:353-376 | the reported stage and errno stand, whatever the wait answers; one failed wait at most |
| Supervisor.FinishUnreadable | native/src/native_supervisor.cpp:378-398 | SIGKILL is sent, the group is contained, the stage is ErrorPipe with the pipe's error |
| Supervisor.PollLeader | native/src/native_supervisor.cpp:403-442 | polling ends with the status, a failed wait, or the timeout reached, after at most timeout/10 rounded up sleeps |
| Supervisor.StopRunning | native/src/native_supervisor.cpp:406-439 | each way out of polling sets its stage, timed_out if and only if time was up, and terminates as its stage demands |
| Supervisor.FinishRunning | native/src/native_supervisor.cpp:400-446 | duration is at least the timeout when timed out; the leader is reaped or a wait failed |
| Supervisor.DropChildEnds | native/src/native_supervisor.cpp:342-346 | after the closes only the read end is left above the entry table and the supervisor holds no write end |
| Supervisor.ReadAndClose | native/src/native_supervisor.cpp:342-351 | the table is the entry table again before the result is made |
| Supervisor.Supervise | native/src/native_supervisor.cpp:342-446 | every way out after the fork meets its verdict |
| Supervisor.OpenWires | native/src/native_supervisor.cpp:259-284 | a failed open or pipe gives its stage and errno and takes back what was opened |
| Supervisor.ForkAndSupervise | native/src/native_supervisor.cpp:286-446 | a failed fork gives its errno and the entry table; a fork that works is supervised to its end |
| Supervisor.RunProcess | native/src/native_supervisor.cpp:238-447 | under every schedule: descriptors conserved, Outcome met, sleeps bounded |
| Theorems.SucceededExactly | native/include/etroute/native_supervisor.h:53-59 | succeeded() if and only if the stage is Ok and the reaped leader exited with 0; then it executed its image and every setup step had succeeded |
| Theorems.FirstFailureIsReported | native/src/native_supervisor.cpp:298-376 | a setup stage names the first failing step in program order and its errno, and without a signal the exit code is 121, 122, 123, 124, 124 or 127 in the order of the stages; the limits, the directory and stdout are set exactly when their steps come before that one; the image never ran |
| Theorems.ImageRunsAsAsked | native/src/native_supervisor.cpp:309-336 | a running image is the executable asked for, with the arguments, environment and working directory asked for, under exactly the limits that were not zero |
| Theorems.RefusedExactly | native/src/native_supervisor.cpp:242-254 | a process is refused, before anything is touched, if and only if a path is not absolute, argv does not begin with the executable, or a time is out of range |
| Theorems.TimeoutErrnoExactly | native/src/native_supervisor.cpp:195-234 | the errno of a timed-out run is that of the last failed wait other than ECHILD, and 0 if and only if there was none |
| Theorems.WaitStageMeansPolling | native/src/native_supervisor.cpp:366-417 | stage Waitpid never replaces a setup failure: it means a wait failed while polling |
| Theorems.TruncationIsNeverMisread | native/src/native_supervisor.cpp:104-141 | a read that failed is reported as ErrorPipe with its errno; otherwise a setup stage means a whole record and ErrorPipe after the fork a truncated one, with EPROTO |
| Theorems.StoppedRunsAreContained | native/src/native_supervisor.cpp:188-234 | after a timeout, a failed wait or an unreadable pipe each member is dead, has SIGKILL pending, may not be signalled, or has come back to the group |
| Theorems.ContainedForGood | native/src/native_supervisor.cpp:207-216 | and so it is in every later run |
| Theorems.OnlyReturningStarts | native/src/native_supervisor.cpp:207-216 | a stopped group stays stopped under every event but the return of a process that had left it |
| Theorems.StoppedForGood | native/src/native_supervisor.cpp:207-216 | so without such a return nothing in a stopped group ever runs again |
| Theorems.SetupFailureLeavesNothing | native/src/native_supervisor.cpp:353-376 | after a reported setup failure with the leader reaped, no process is left |
| Theorems.GraceIsGiven | native/src/native_supervisor.cpp:195-216 | in a timed-out run SIGTERM comes first, not before the timeout, and SIGKILL not before the grace period after it |
| Theorems.EverySignalIsAccounted | native/src/native_supervisor.cpp:158-163 | in every run every signal was sent after both setpgid calls, has the answer its processes call for, and the leader was signalled by itself right after its group refused, and only then |
| Theorems.LeaderIsTerminated | native/src/native_supervisor.cpp:188-195 | in every timed-out run the leader gets SIGTERM, unless at that moment it was dead, had moved itself, or might not be signalled |
| Theorems.ImageIsRedirectedExactly | native/src/native_supervisor.cpp:323-336 | in every reachable world with a running image: its table, its redirection condition, and no report end |
| Theorems.LeaderMissedExactly | native/src/native_supervisor.cpp:158-163 | in every timed-out run: whom SIGTERM goes to, and exactly when it misses a running leader |
| Theorems.GroupedLeaderIsReached | native/src/native_supervisor.cpp:158-163 | in every run every signal to the group reaches a running leader that has not moved itself and may be signalled |
| Theorems.MovedLeaderIsMissed | native/src/native_supervisor.cpp:158-163 | in a timed-out run that finds the group gone no other signal is sent and a leader running elsewhere is never hit |
| Theorems.LeaderCanMoveAway | native/src/native_supervisor.cpp:158-163 | and from every world with its image running alone the leader can bring that about |
| Theorems.SetupCanSucceed | native/src/native_supervisor.cpp:298-336 | the success path is open from every point of the setup |
| Jni.FromWireDefinedExactly | android/src/main/java/org/nemack/universalfilelab/etroute/JniNativeSupervisor.kt:3-23 | Kotlin knows exactly the numbers 0 to 13 |
| Jni.UnpackExactly | android/src/main/java/org/nemack/universalfilelab/etroute/JniNativeSupervisor.kt:157-171 | Kotlin raises if and only if there are not seven numbers, the ABI number is not 1, or the stage is unknown, in this order |
| Jni.UnpackLosesNothingExactly | native/src/jni_native_supervisor.cpp:105-123 | packing then unpacking never raises, and loses nothing if and only if a missing code is -1 and a missing signal 0 |
| Jni.SuccessAgreesExactly | android/src/main/java/org/nemack/universalfilelab/etroute/JniNativeSupervisor.kt:79-84 | the two definitions of success differ only on a negative signal beside an otherwise successful record |
| Jni.OutcomeIsInRange | native/src/native_supervisor.cpp:143-151 | ranges of the fields, and exactly one of code and signal if and only if the leader was reaped |
| Jni.EveryOutcomeCrosses | android/src/main/java/org/nemack/universalfilelab/etroute/JniNativeSupervisor.kt:157-171 | every result the supervisor can return decodes, loses nothing, and is a success on both sides or on neither |
| Jni.ToStrings | native/src/jni_native_supervisor.cpp:78-103 | all elements, in order, or the elements before the first null |
| Jni.CrossesExactly | native/src/jni_native_supervisor.cpp:125-147 | the scalar checks pass if and only if the timeout is positive and the grace period and all four limits are not negative |
| Jni.ConstructibleLaunchIsAcceptable | native/src/jni_native_supervisor.cpp:125-147 | whatever Kotlin can construct passes the scalar checks and the supervisor's own |
| Jni.LaunchIsRecovered | native/src/jni_native_supervisor.cpp:246-261 | the whole launch can be read back from what run_process gets, as long as no environment key holds an equals sign |
| Jni.KotlinNeverSeesInvalidArgument | native/src/native_supervisor.cpp:242-254 | so no result from Kotlin carries stage InvalidArgument |
| Jni.EnvironmentSurvives | android/src/main/java/org/nemack/universalfilelab/etroute/JniNativeSupervisor.kt:142-145 | every entry reads back as its key and value as long as the key holds no equals sign |
| Jni.Run | android/src/main/java/org/nemack/universalfilelab/etroute/JniNativeSupervisor.kt:138-172 | the whole way: the launch is accepted, its stdout and stderr opened in this order each as its own descriptor's file, a leader forked with its executable, arguments, environment, directory and limits, and that is what its image runs as; the first failed call of the start is the stage and errno; what Kotlin gets is the supervisor's result, whole, with its outcome; succeeded if and only if stage OK and the image's exit code 0; duration, grace period and number of sleeps in the launch's own times; descriptors conserved |
| Paths.IsWithinExactly | android/src/main/java/org/nemack/universalfilelab/etroute/EtRouteRuntime.kt:50-54 | the string test is the component prefix test, with its one exception at the root |
| Sessions.SessionRootIsOwn | android/src/main/java/org/nemack/universalfilelab/etroute/EtRouteRuntime.kt:22-29 | without links below the sessions directory a valid id gets its own subdirectory and the escape check passes |
| Sessions.CreatedLayout | android/src/main/java/org/nemack/universalfilelab/etroute/EtRouteRuntime.kt:22-48 | the five directories of a created session, component by component |
| Sessions.CreatedExactly | android/src/main/java/org/nemack/universalfilelab/etroute/EtRouteRuntime.kt:25-48 | without links below the sessions directory a session is created if and only if its id is not empty and made of letters, digits, "-" and "_", and its four directories can be made or are there |
| Sessions.SessionsAreDisjoint | android/src/main/java/org/nemack/universalfilelab/etroute/EtRouteRuntime.kt:50-54 | no path is inside the roots of two sessions |
| Sessions.AcceptedLaunchStaysInItsSession | android/src/main/java/org/nemack/universalfilelab/etroute/EtRouteRuntime.kt:70-98 | cwd, stdout and stderr of an accepted launch are inside its session and inside no other |
| Sessions.AcceptedExactly | android/src/main/java/org/nemack/universalfilelab/etroute/EtRouteRuntime.kt:70-107 | without links below the sessions directory a launch is accepted if and only if its paths lie below an approved root, the session and its diagnostics component by component, the output files differ, and the rest is in order |
| Sessions.ValidEnvironmentExactly | android/src/main/java/org/nemack/universalfilelab/etroute/EtRouteRuntime.kt:100-107 | an environment is valid if and only if it has at most 128 entries, each key is an ASCII identifier, and each value is short enough and free of NUL |
| Sessions.ExecutableIsApproved | android/src/main/java/org/nemack/universalfilelab/etroute/EtRouteRuntime.kt:73-78 | an accepted executable lies below an approved root, component by component |
| Sessions.ValidateIsIdempotent | android/src/main/java/org/nemack/universalfilelab/etroute/EtRouteRuntime.kt:70-98 | validation is idempotent, touches only the four paths, and separates stdout from stderr |
| Finalizer.InputStream.Read | android/src/main/java/org/nemack/universalfilelab/etroute/EtRouteRuntime.kt:272-273 | one read: some of what comes next, or the end exactly at the end, or an exception |
| Finalizer.ReadPrefix | android/src/main/java/org/nemack/universalfilelab/etroute/EtRouteRuntime.kt:263-280 | for every pattern of short reads the first min(length, limit, Int.MAX_VALUE) bytes |
| Finalizer.Session.Settle | android/src/main/java/org/nemack/universalfilelab/etroute/EtRouteRuntime.kt:249-255 | one diagnostic is deleted, cut to min(limit, Int.MAX_VALUE) or left, and no other is touched; only cutting can fail |
| Finalizer.Session.RetainBoundedDiagnostics | android/src/main/java/org/nemack/universalfilelab/etroute/EtRouteRuntime.kt:246-261 | files with approved names stay, cut to the limit; the rest goes unless its deletion failed; nothing is ever invented, not even by a write that fails; it fails only when such a file is over the limit |
| Finalizer.Session.FilesLeft | android/src/main/java/org/nemack/universalfilelab/etroute/EtRouteRuntime.kt:257-260 | the surviving files, each once, each name a beginning of every later one or smaller than it at the first difference |
| Finalizer.Session.Finalize | android/src/main/java/org/nemack/universalfilelab/etroute/EtRouteRuntime.kt:217-244 | every outcome: nothing touched on a bad limit or a failed export, output kept when asked, cleaned exactly when the work directories are gone, diagnostics retained as stated, an I/O failure only from a diagnostic over its limit |
| Finalizer.RetainingIsIdempotent | android/src/main/java/org/nemack/universalfilelab/etroute/EtRouteRuntime.kt:246-261 | retaining twice changes nothing and reports the same list |
| Installer.StepKeepsInv | etroute.py:234-272 | every operation, failure or crash of any installer keeps the invariant |
| Installer.RunKeepsInv | etroute.py:234-272 | so does every interleaving |
| Installer.FinalIsAlwaysSound | etroute.py:234-272 | for any number of installers the final directory is absent, complete, or the untouched original |
| Installer.InstalledIsKeptForGood | etroute.py:260-272 | once something is installed, the latest installed environment is whole at the final path or in a backup, for good |
| InstallerSettled.StaysExactly | etroute.py:234-263 | what is at the final path stays there in every run if and only if no installer under way can still reach its first rename and carry it out |
| InstallerSettled.InstalledStaysExactly | etroute.py:260-272 | so for a reported installation |
| InstallerSettled.LosingStepExactly | etroute.py:261-263 | the one step by which the latest installation leaves the final path |
| InstallerLooks.TakesAwayExactly | etroute.py:234-263 | an installer takes away what is at the final path if and only if its second look finds something, its rename works, and its first look found nothing or it was asked to replace |
| Installer.OriginalsStay | etroute.py:260-268 | whatever counts as the original is the directory from the start, unchanged |
| Installer.StepKeepsBridge | etroute.py:261-269 | a step loses the way back to the final path only by a crash or an error while holding the backup |
| Installer.GapIsClosed | etroute.py:261-269 | without such a loss the final path is there again when all installers are done |
| InstallerRaces.SuccessCanBeUndone | etroute.py:261-269 | a run of three installers, nothing failing, after which a reported success is only in a backup |
| InstallerRaces.DeletedWithoutReplace | etroute.py:234-272 | a run of two installers, neither asked to replace and nothing failing, in which the second deletes what the first has installed |
| InstallerRaces.CrashLosesFinal | etroute.py:261-265 | a crash between the two renames leaves a complete environment in the backup and nothing at the final path |
| Installation.OthersLeaveAlone | etroute.py:245-272 | other installers never touch an installer's staging directory, backup or progress |
| Installation.StoppedAnywhere | etroute.py:260-272 | a lone installer stopped anywhere leaves the old environment whole at the final or backup path, or the new one complete at the final path |
| Installation.GapExactly | etroute.py:260-269 | when exactly a lone installer leaves the final path empty |
| Installation.Disk.MoveAway | etroute.py:261-263 | the first rename, among any installers: exactly what it met at the final path becomes its backup, or no shared path changes |
| Installation.Disk.SwapIn | etroute.py:264-266 | the second rename, among any installers: its own complete environment is at the final path, which was free, or no shared path changes and the rollback follows |
| Installation.Disk.PutBack | etroute.py:268 | the rollback rename, among any installers: what was moved away is at the final path again, or no shared path changes |
| Installation.Disk.RollBack | etroute.py:266-269 | among any installers: what was moved away is back at the final path or still whole in the backup, and if the swap's own error is raised the final path is not empty |
| Installation.Disk.Activate | etroute.py:260-272 | both renames, the rollback and the deletion of the backup |
| Installation.Disk.InstallRootfs | etroute.py:223-272 | among others the invariant holds; alone the outcome is exact: installed, and the final path holds image, version, architecture, source and digest as requested; already installed or conflict, nothing changed, as those four of the manifest agree with the request or not; or raised with the previous environment in place unless the error came from the rollback or from deleting the backup; alone and without replace an existing environment is never touched |
| Installation.InstallingTwice | etroute.py:232-258 | after a lone installation a second lone call without replace changes nothing, and without a failing operation ends as already installed if and only if both asked for the same image, version, architecture and digest, and in a conflict otherwise |
| Ordering.SortedStays | tools/build_release.py:55 | and neither adds, drops nor repeats |
| Ordering.AtMostExactly | tools/build_release.py:55 | the order sorted by: a beginning comes before, and otherwise the first difference decides |
| Ordering.OneOrder | tools/build_release.py:55 | items with distinct keys have one ascending order |
| Encodings.BigEndianDecodes | tools/build_release.py:62-65 | a length comes back from its big-endian bytes if and only if it fits |
| Encodings.BigEndianDigits | tools/build_release.py:62-65 | byte i of a big-endian length is its digit of weight 256 to the power width - 1 - i |
| Encodings.CharDecodes | tools/build_release.py:61 | the UTF-8 bytes of a character determine it, and the lead byte their number |
| Encodings.CharIsWellFormed | tools/build_release.py:61 | the encoding of a character is one of the well-formed byte sequences, so never longer than needed |
| Encodings.Utf8Injective | tools/build_release.py:61 | distinct paths have distinct encodings |
| TreeStream.SuffixExactly | tools/build_release.py:48 | which names count as compiled Python: those that end so and are longer than the suffix |
| TreeStream.IncludedExactly | tools/build_release.py:40-54 | which files are included, by the names of their directories and the end of their own |
| TreeStream.IncludedFiles | tools/build_release.py:40-55 | exactly the included files of the listing, each path once, the path of each a beginning of every later one or smaller than it at the first differing character |
| TreeStream.TreeDigest | tools/build_release.py:58-67 | what the digest is fed, or an overflow if and only if some length does not fit its prefix |
| TreeStream.RecordLayout | tools/build_release.py:60-66 | where in the stream a file's path length, path, content length and content lie, byte by byte |
| TreeStream.StreamDecodes | tools/build_release.py:58-67 | every stream reads back as its files' paths and contents |
| TreeStream.SameStreamExactly | tools/build_release.py:40-67 | whatever the listing order, two trees give the same stream if and only if their included files have the same paths and contents |
| PurePaths.ParseText | etroute.py:138-141 | normalizing a path is idempotent, for all three roots |
| PurePaths.ParsedTailIsTail | etroute.py:138 | a path's components are those of its text, the root adding none |
| PurePaths.ParsedExactly | etroute.py:138 | the components are the pieces between slashes other than "" and "."; the root is "//" for exactly two leading slashes, "/" for any other number |
| Binds.ValidateIsIdempotent | etroute.py:134-141 | a validated bind is a fixed point |
| Binds.GoodGuestExactly | etroute.py:138-140 | a guest passes if and only if its text starts with a slash and no piece of it is ".." |
| Binds.AcceptedExactly | etroute.py:134-141 | when exactly a bind is accepted, and what comes out: the resolved host and the same guest path normalized |
| Binds.RoundTripExactly | etroute.py:143-146 | when exactly what is written reads back as the validated bind |
| Binds.ParsedIsValidated | etroute.py:275-282 | whatever is parsed is already validated |
| Binds.ParsedExactly | etroute.py:275-282 | a text without a colon is refused; any other is split at its first colon, a last "!" being the mark, and validated |
| LaunchSpec.StripFacts | proot_launch_spec.py:79 | stripping is idempotent and empties exactly blank text |
| LaunchSpec.StripExactly | proot_launch_spec.py:79 | the stripped text is the one that lies between the blanks around it |
| LaunchSpec.NormalizeBinds | proot_launch_spec.py:91-100 | the loop over the binds gives the first complaint or all normalized binds in order |
| LaunchSpec.NormalizeEnvironment | proot_launch_spec.py:102-107 | the loop over the environment, a repeated key keeping its place |
| LaunchSpec.ValidateSpec | proot_launch_spec.py:64-120 | validation in the source's order of checks |
| LaunchSpec.CheckBindsExactly | proot_launch_spec.py:91-100 | the binds pass if and only if each validates and their guests are pairwise distinct; the result is each bind validated |
| LaunchSpec.EnvironmentExactly | proot_launch_spec.py:102-107 | the environment passes if and only if every key, stripped, is non-empty and free of equals signs and NULs |
| LaunchSpec.LastValueWins | proot_launch_spec.py:102-107 | the environment holds under each stripped key the value of the last item with that key |
| LaunchSpec.AcceptedExactly | proot_launch_spec.py:64-120 | a specification is accepted if and only if all its conditions hold |
| LaunchSpec.ValidatedFields | proot_launch_spec.py:109-121 | every field of an accepted specification in terms of the one given: root file system resolved, binds validated, release stripped, last values, the rest unchanged |
| LaunchSpec.SomethingIsAccepted | proot_launch_spec.py:64-120 | there is something to accept: the conditions do not exclude each other |
| LaunchSpec.AcceptedGuestsAreDistinct | proot_launch_spec.py:91-100 | accepted guests are normalized and pairwise distinct |
| LaunchSpec.RevalidationExactly | proot_launch_spec.py:64-120 | validation is a fixed point after one pass exactly unless the kernel release is blank, and always after two |
| ProotArgv.BuildStart | proot_launch_spec.py:176-183 | the options before the binds: root file system, root id, release, and kill-on-exit only if asked for and supported |
| ProotArgv.BuildProotArgv | proot_launch_spec.py:169-192 | validation's complaint, or a vector that reads back as what the specification asked for: root file system resolved, root id, command, kill-on-exit if supported too, release if anything is left of it, working directory, and each bind's resolved host, normalized guest and mark in order |
| ProotArgv.BindsDecode | proot_launch_spec.py:185-186 | the bind arguments end where the next option begins |
| ProotArgv.ArgvDecodes | proot_launch_spec.py:176-192 | every vector reads back as the one guest it was built for |
| ProotArgv.SameArgvSameGuest | proot_launch_spec.py:169-192 | equal vectors mean equal root file system, root id, kernel release, effective kill-on-exit, binds, working directory and command |
| ProotArgv.RevalidationKeepsArgv | proot_launch_spec.py:175-192 | re-validating never changes the vector |
| ProotArgv.BindsAreRecovered | proot_launch_spec.py:46-49 | each bind argument reads back as its bind under the round-trip condition |

## Left out

- Real system calls, JNI handles, Java exceptions, allocation failure: the kernel is the transition system in `World` and `Kernel`. Pids are not reused within a run; the parent's setpgid fails only once the leader has executed its image or is gone; a process that comes back to the leader's group is one that left it or descends from one, not a stranger.
- Termination of a blocking call: a read or waitpid that never returns has no state after it. The loops around the calls are proved to terminate for finitely many interruptions.
- Other threads of the supervisor's process: they may inherit and release the error pipe's write end (`strangers`), but not open or close descriptors in its table.
- A process regaining permission, and a process moving another process's group: permission is only lost, groups change only by a process's own move and for the leader by the two setpgid calls.
- apply_limit: the four setrlimit calls are one step that may fail when some limit is asked for, and of a failed one nothing is recorded; the cap at the largest rlim_t is not modelled.
- The 64-bit width of the supervisor's counters and times: they are unbounded; the fields that cross the boundary are shown to fit where they are narrowed, except the duration, which is a count of milliseconds.
- Modified UTF-8 in JNI strings, and the advisory address-space and policy-version calls.
- The order of the environment array: Kotlin sorts the keys; the model takes the entries in that order.
- `EtRouteSessionRunner`, and path canonicalization itself: `canon` and `resolve` are idempotent oracles over an unchanging file system; only the lexical logic is concrete.
- Finalizer: contents of the input, temporary and output trees beyond what is left of them, and an export sink that changes the session.
- Installer: checksum verification, tar extraction and the shell check are one step that answers; name validation precedes the model; the staging directory's own removal is taken to work; the text of the manifest is its fields.
- Installer.GapIsClosed: says nothing about runs in which an installer crashes or errs while holding the backup, because then the final path may stay empty (`InstallerRaces.CrashLosesFinal`).
- Installation.Disk.InstallRootfs: its exact outcome is for a lone installer; among others a later installer may change the shared paths before it returns, and what its own operations do is in the contracts of `MoveAway`, `SwapIn`, `PutBack` and `RollBack`.
- Tree stream: SHA-256 itself; file names that are not valid Unicode, for which encoding raises; files that change while they are read.
- PRoot: the JSON form of a specification and the coercion of fields of other types to strings and booleans.
- `execution_backend.py`, `runtime_contract.py`, `bridge_protocol.py`, `etroute_p4a.py`, the bridge and validation tools, command lines and build scripts: field checks and plumbing without a state machine, which would add only easy members.
