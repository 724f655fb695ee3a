/** What the supervisor's result tells its caller, for every run. */
module Theorems {
  import opened Posix
  import opened Wrappers
  import opened Descriptors
  import opened ProcessTree
  import opened LeaderProgram
  import opened World
  import K = Kernel
  import opened Supervisor

  /** Success means the leader executed its image and that image exited with 0, and nothing less: a
      leader that died before execve never looks like it, not even when its report was lost. */
  lemma SucceededExactly(p: PreparedProcess, w: World, r: NativeRunResult, started: nat, log: seq<Call>)
    requires Outcome(p, w, r, started, log)
    ensures r.Succeeded() <==> r.stage.Ok? && w.tree.fate == Reaped(Exited(0))
    ensures r.Succeeded() ==> Born(w) && w.child.program.Image? && (forall a :: a in w.child.answers ==> a == 0)
  {
    if r.Succeeded() {
      assert Born(w) && w.tree.fate.Reaped?;
      assert w.tree.Ending() == Some(Exited(0));
    }
  }

  /** A process is refused before anything is touched exactly when one of its four paths is not absolute,
      its arguments do not begin with its executable, or one of its times is out of range. */
  lemma RefusedExactly(p: PreparedProcess, w: World, r: NativeRunResult, started: nat, log: seq<Call>)
    requires Outcome(p, w, r, started, log)
    ensures r.stage.InvalidArgument? <==>
              || (exists path :: path in [p.executable, p.workingDirectory, p.stdoutPath, p.stderrPath] && !(['/'] <= path))
              || !([p.executable] <= p.argv) || p.timeoutMs <= 0 || p.terminateGraceMs < 0
    ensures r.stage.InvalidArgument? ==>
              !Born(w) && w.calls == [] && r.spawnErrno == 22 && r.exitCode == -1 && r.signal == 0 && !r.timedOut
  {
    if Born(w) {
      ForkedStages(p, r, log, started, w);
    }
    hide ForkedVerdict, Inv;
    var paths := [p.executable, p.workingDirectory, p.stdoutPath, p.stderrPath];
    assert paths[0] in paths && paths[1] in paths && paths[2] in paths && paths[3] in paths;
    assert forall path :: path in paths ==> (['/'] <= path <==> IsAbsolutePath(path));
  }

  predicate SetupStage(stage: SpawnStage) {
    6 <= StageNumber(stage) <= 11
  }

  /** Exactly the limits that are not zero, each with its resource. */
  ghost predicate SetsLimits(limits: seq<(Resource, nat)>, asked: NativeResourceLimits) {
    forall resource, value :: (resource, value) in limits <==>
      value != 0 && value == match resource
                             case CpuTime => asked.cpuSeconds
                             case OpenFiles => asked.maxOpenFiles
                             case FileSize => asked.maxFileBytes
                             case AddressSpace => asked.maxAddressSpaceBytes
  }

  /** What the kernel has been given after each number of steps. */
  lemma GivenInOrder(job: Job, pc: nat)
    requires pc <= STEPS
    ensures var g := GivenAt(job, pc);
            && g.limits == (if pc > LIMITS then LimitsAsked(job.limits) else [])
            && g.directory == (if pc > CHDIR then Some(job.workingDirectory) else None)
            && g.image == (if pc > EXECVE then Some(Execution(job.executable, job.argv, job.envp)) else None)
  {
    if pc > 0 {
      GivenInOrder(job, pc - 1);
    }
  }

  lemma LimitsAreSet(asked: NativeResourceLimits)
    ensures SetsLimits(LimitsAsked(asked), asked)
  {
  }

  /** A running image is the executable asked for, with the arguments, the environment and the working
      directory asked for, under exactly the limits that were not zero. */
  lemma ImageRunsAsAsked(p: PreparedProcess, w: World, r: NativeRunResult, started: nat, log: seq<Call>)
    requires Outcome(p, w, r, started, log) && Born(w)
    ensures w.child.program.Image? <==> w.child.given.image.Some?
    ensures w.child.program.Image? ==>
              && w.child.given.image.value.path == p.executable
              && w.child.given.image.value.argv == p.argv && w.child.given.image.value.envp == p.envp
              && w.child.given.directory == Some(p.workingDirectory)
              && SetsLimits(w.child.given.limits, p.limits)
  {
    GivenInOrder(w.child.job, StepsTaken(w.child.program));
    LimitsAreSet(p.limits);
    hide ForkedVerdict, SetsLimits, LimitsAsked, GivenAt;
  }

  /** A setup stage in the result names the first step of the leader's setup that failed, with that
      step's error; the image never ran; and unless a signal got the leader first, it left with that
      step's exit code. The limits and the directory asked for are set exactly when their steps come
      before that one; so is stdout when it is stderr that cannot be redirected. */
  lemma FirstFailureIsReported(p: PreparedProcess, w: World, r: NativeRunResult, started: nat, log: seq<Call>)
    returns (step: nat)
    requires Outcome(p, w, r, started, log) && SetupStage(r.stage)
    ensures Born(w) && !w.child.program.Image? && |w.child.answers| == step + 1 <= STEPS
    ensures (forall i :: 0 <= i < step ==> w.child.answers[i] == 0) && w.child.answers[step] != 0
    ensures r.stage == StageOf(step) && r.spawnErrno == w.child.answers[step] && CanFail(step)
    ensures r.stage.ResourceLimit? ==> p.limits.Any()
    ensures w.tree.fate.Reaped? && r.signal == 0 ==>
              && (StageNumber(r.stage) <= 9 ==> r.exitCode == 115 + StageNumber(r.stage))
              && (r.stage.Dup2Stderr? ==> r.exitCode == 124) && (r.stage.Execve? ==> r.exitCode == 127)
    ensures StageNumber(r.stage) > 7 ==> SetsLimits(w.child.given.limits, p.limits)
    ensures StageNumber(r.stage) <= 7 ==> w.child.given.limits == []
    ensures w.child.given.directory == if StageNumber(r.stage) > 8 then Some(p.workingDirectory) else None
    ensures w.child.given.image.None?
    ensures r.stage.Dup2Stderr? ==> 1 in w.child.fds && w.child.fds[1].file == OutFile
  {
    assert ReportVerdict(r, log, w);
    step := w.child.program.pc;
    GivenInOrder(w.child.job, step);
    OutputFirst(w.child.entry);
    LimitsAreSet(p.limits);
    hide ForkedVerdict, SetsLimits, LimitsAsked, GivenAt;
    if w.tree.fate.Reaped? {
      assert EndsLike(w.child.program, w.tree.Ending().value);
    }
  }

  /** The waiting stage is never reported in place of a setup failure: it means that polling itself
      failed, after the error pipe had been read to its end without a report. */
  lemma WaitStageMeansPolling(p: PreparedProcess, w: World, r: NativeRunResult, started: nat, log: seq<Call>)
    requires Outcome(p, w, r, started, log) && r.stage.Waitpid?
    ensures Born(w) && log != [] && log[0].WaitFailure? && log[0].error == r.spawnErrno
    ensures w.child.written == [] || w.child.program.Image?
  {
    assert RunningVerdict(p, r, log, started, w);
  }

  /** When read itself failed, that is what is reported. Otherwise no result with a setup stage comes from
      a truncated record, and none with stage ErrorPipe from a whole one. */
  lemma TruncationIsNeverMisread(p: PreparedProcess, w: World, r: NativeRunResult, started: nat, log: seq<Call>)
    requires Outcome(p, w, r, started, log) && Born(w)
    ensures log != [] && log[0].ReadFailure? ==> r.stage.ErrorPipe? && r.spawnErrno == log[0].error
    ensures log == [] || !log[0].ReadFailure? ==>
              && (SetupStage(r.stage) <==> |w.child.written| == 8)
              && (r.stage.ErrorPipe? <==> 0 < |w.child.written| < 8)
              && (r.stage.ErrorPipe? ==> r.spawnErrno == 71)
  {
    hide Accounted, SumsUpWaits, Killed, ReportsFate, Tree.Contained, Tree.GroupEmpty, LeaderGrouped, Tree.Childless;
    if ReportVerdict(r, log, w) {
      assert SetupStage(r.stage);
    } else if PipeVerdict(r, log, w) {
      assert r.stage.ErrorPipe?;
    } else {
      assert w.child.written == [];
    }
  }

  /** After a timeout, a failed wait or an unreadable pipe, every process in the leader's group is dead,
      has SIGKILL pending, may not be signalled by the supervisor at all, or has come back to the group
      from another one it had moved to. */
  lemma StoppedRunsAreContained(p: PreparedProcess, w: World, r: NativeRunResult, started: nat, log: seq<Call>)
    requires Outcome(p, w, r, started, log) && Born(w) && !r.stage.Ok? && !SetupStage(r.stage)
    ensures forall q :: q in w.tree.procs && w.tree.procs[q].group == w.tree.leader ==>
              var m := w.tree.procs[q]; m.life.Zombie? || SIGKILL in m.pending || !m.permitted || m.returned
  {
    hide Accounted, TerminationCalls, SumsUpWaits, Killed, ReportsFate, Inv, Tree.GroupEmpty;
    if PipeVerdict(r, log, w) {
    } else {
      assert RunningVerdict(p, r, log, started, w);
    }
  }

  /** Of the group, still to run code, within reach of the supervisor's signals, and never away. */
  predicate Reachable(t: Tree, q: Pid) {
    t.Member(q) && !t.procs[q].Halted()
  }

  /** And so it stays: whatever happens afterwards, nothing in the group runs on or forks again, except
      what may not be signalled or comes back from another group. */
  lemma ContainedForGood(w: World, schedule: seq<Event>)
    requires Inv(w) && Born(w) && w.grouped && w.tree.Contained()
    ensures var v := Run(w, schedule); forall q :: !Reachable(v.tree, q)
  {
    RunKeeps(w, schedule);
    assert Run(w, schedule).tree.Contained();
  }

  /** Every member is dead, has SIGKILL pending or may not be signalled. */
  predicate Stopped(t: Tree) {
    forall p :: p in t.procs && t.procs[p].group == t.leader ==>
      t.procs[p].life.Zombie? || SIGKILL in t.procs[p].pending || !t.procs[p].permitted
  }

  predicate ComesBack(t: Tree, e: Event) {
    e.Elsewhere? && e.e.MovesTo? && e.e.group == t.leader && !t.Member(e.e.p)
  }

  /** Only a process that comes back, of its own and not killed before, can break into a stopped group. */
  lemma OnlyReturningStarts(w: World, e: Event)
    requires Inv(w) && Born(w) && w.grouped && Stopped(w.tree) && !ComesBack(w.tree, e)
    ensures Stopped(Step(w, e).tree)
  {
    if e.Elsewhere? {
      MembersStayStopped(w.tree, w.child.program.Image?, e.e);
    } else {
      assert w.tree.Steps(w.tree.leader) && !w.child.program.Image? ==> w.tree.Member(w.tree.leader);
    }
  }

  lemma MembersStayStopped(t: Tree, image: bool, e: ProcessEvent)
    requires Stopped(t) && (e.MovesTo? && e.group == t.leader ==> t.Member(e.p))
    ensures Stopped(TreeStep(t, image, e))
  {
  }

  ghost predicate NobodyComesBack(w: World, schedule: seq<Event>)
    decreases |schedule|
  {
    schedule != [] ==> !ComesBack(w.tree, schedule[0]) && NobodyComesBack(Step(w, schedule[0]), schedule[1..])
  }

  /** As long as nobody comes back, the group of a stopped run stays stopped for good. */
  lemma {:induction false} StoppedForGood(w: World, schedule: seq<Event>)
    requires Inv(w) && Born(w) && w.grouped && Stopped(w.tree) && NobodyComesBack(w, schedule)
    ensures Stopped(Run(w, schedule).tree)
    decreases |schedule|
  {
    hide Inv, Stopped, ComesBack, Step;
    if schedule != [] {
      OnlyReturningStarts(w, schedule[0]);
      StepKeeps(w, schedule[0]);
      EntryStays(w, Step(w, schedule[0]));
      SameOwnGrouped(w, Step(w, schedule[0]));
      StoppedForGood(Step(w, schedule[0]), schedule[1..]);
    }
  }

  lemma SameOwnGrouped(a: World, b: World)
    requires SameOwn(a, b)
    ensures b.grouped == a.grouped
  {
  }

  /** The errno of a timed-out run is that of the last wait that failed after the timeout, not counting
      those that found nothing to wait for; it is 0 exactly when there was none. */
  lemma TimeoutErrnoExactly(p: PreparedProcess, w: World, r: NativeRunResult, started: nat, log: seq<Call>)
    requires Outcome(p, w, r, started, log) && r.timedOut
    ensures r.spawnErrno == 0 <==> forall c :: c in log && c.WaitFailure? ==> c.error == 10
    ensures r.spawnErrno != 0 ==>
              exists i :: 0 <= i < |log| && log[i].WaitFailure? && log[i].error == r.spawnErrno
                          && forall j :: i < j < |log| && log[j].WaitFailure? ==> log[j].error == 10
  {
    assert RunningVerdict(p, r, log, started, w);
    hide ForkedVerdict, TerminationCalls, Killed;
    if r.spawnErrno != 0 {
      var i :| 0 <= i < |log| && LastWait(r.spawnErrno, log, i);
      assert log[i] in log;
    }
  }

  /** A setup failure leaves nothing behind once the leader is reaped: it never had a child. */
  lemma SetupFailureLeavesNothing(p: PreparedProcess, w: World, r: NativeRunResult, started: nat, log: seq<Call>)
    requires Outcome(p, w, r, started, log) && SetupStage(r.stage) && w.tree.fate.Reaped?
    ensures w.tree.procs == map[]
  {
    assert ReportVerdict(r, log, w);
    assert w.tree.Childless() && w.tree.leader !in w.tree.procs;
  }

  /** In a timed-out run SIGTERM goes out no earlier than the timeout, and SIGKILL no earlier than the
      grace period after it. */
  lemma GraceIsGiven(p: PreparedProcess, w: World, r: NativeRunResult, started: nat, log: seq<Call>, i: nat)
    requires Outcome(p, w, r, started, log) && r.timedOut && i < |log|
    requires log[i].SignalCall? && log[i].sig == SIGKILL
    ensures log[0].SignalCall? && log[0].sig == SIGTERM && log[0].at >= started + p.timeoutMs * K.NS_PER_MS
    ensures log[i].at >= log[0].at + p.terminateGraceMs * K.NS_PER_MS
  {
    assert RunningVerdict(p, r, log, started, w);
    assert log[i] in log;
    assert log[0] in log;
  }

  /** The image's descriptors are those its entry and the nine setup steps give; 1 and 2 are the output
      files exactly when the supervisor itself was started with 1 and 2 open. */
  lemma ImageIsRedirectedExactly(w: World)
    requires Inv(w) && Born(w) && w.child.program.Image?
    ensures w.child.fds == ImageTable(w.child.entry)
    ensures RedirectedAsAsked(w.child.fds) <==> 1 in w.child.entry && 2 in w.child.entry
    ensures !Holds(w.child.fds, PipeWrite)
  {
    RedirectionExactly(w.child.entry);
    HoldsReportEndUntilExec(w.child);
  }

  // ---- whom the signals reach ----------------------------------------------------------------

  /** Every signal of every run is answered for: it was sent after both setpgid calls, its answer is the
      one its processes call for, and the leader was signalled by itself right after its group was
      refused, and only then. */
  lemma EverySignalIsAccounted(p: PreparedProcess, w: World, r: NativeRunResult, started: nat, log: seq<Call>)
    requires Outcome(p, w, r, started, log) && Born(w)
    ensures Accounted(log, w.tree.leader)
  {
    hide Accounted, Inv, ReportsFate, Killed, SumsUpWaits, Tree.Contained;
    if ReportVerdict(r, log, w) {
      QuietIsAccounted(log, w.tree.leader);
    } else if !PipeVerdict(r, log, w) {
      RunningSignalsAreAccounted(p, w, r, started, log);
    }
  }

  lemma RunningSignalsAreAccounted(p: PreparedProcess, w: World, r: NativeRunResult, started: nat, log: seq<Call>)
    requires RunningVerdict(p, r, log, started, w)
    ensures Accounted(log, w.tree.leader)
  {
    hide Accounted, Killed, SumsUpWaits, Tree.Contained;
    if r.stage.Ok? {
      QuietIsAccounted(log, w.tree.leader);
    } else if r.stage.Waitpid? {
      QuietIsAccounted(log[..1], w.tree.leader);
      AccountedConcat(log[..1], log[1..], w.tree.leader);
      assert log[..1] + log[1..] == log;
    }
  }

  /** In every run, every signal to the group reaches a leader that runs, has not moved itself and may
      be signalled: the ESRCH shortcut never misses such a leader. */
  lemma GroupedLeaderIsReached(p: PreparedProcess, w: World, r: NativeRunResult, started: nat, log: seq<Call>, c: Call)
    requires Outcome(p, w, r, started, log) && Born(w)
    requires c in log && c.SignalCall? && c.target.ToGroup?
    requires var t := c.seen; t.Runs(w.tree.leader) && !t.left && t.procs[w.tree.leader].permitted
    ensures c.answer.Success? && K.Hits(c, w.tree.leader)
  {
    EverySignalIsAccounted(p, w, r, started, log);
    hide Outcome;
    assert Truthful(c, w.tree.leader);
  }

  /** The leader gets the termination's SIGTERM: with its group, or by itself after its group was
      refused. */
  predicate Terminated(log: seq<Call>, leader: Pid) {
    |log| > 0 && (K.Hits(log[0], leader) || (Refused(log[0]) && |log| > 1 && K.Hits(log[1], leader)))
  }

  /** In every timed-out run SIGTERM goes to the group first, and to the leader by itself exactly when the
      group is there and none of it may be signalled. A leader that runs then is missed exactly when it
      may not be signalled, or has moved to another group and its old one is gone or answers for it. */
  lemma LeaderMissedExactly(p: PreparedProcess, w: World, r: NativeRunResult, started: nat, log: seq<Call>)
    requires Outcome(p, w, r, started, log) && r.timedOut
    ensures log != [] && log[0].SignalCall? && log[0].sig == SIGTERM && log[0].target.ToGroup?
    ensures Refused(log[0]) <==> !log[0].seen.GroupEmpty() && !log[0].seen.SomePermitted()
    ensures Refused(log[0]) <==> |log| > 1 && log[1].SignalCall? && log[1].sig == SIGTERM && log[1].target.ToLeader?
    ensures var l, t := w.tree.leader, log[0].seen;
            t.Runs(l) ==>
              (!Terminated(log, l) <==>
                 if Refused(log[0]) then !log[1].seen.Runs(l) || !log[1].seen.procs[l].permitted
                 else !t.procs[l].permitted || (!t.Member(l) && (t.GroupEmpty() || t.SomePermitted())))
  {
    EverySignalIsAccounted(p, w, r, started, log);
    TimedOutCalls(p, w, r, started, log);
    hide Outcome;
    assert Truthful(log[0], w.tree.leader);
    if |log| > 1 {
      assert log[1] in log && Truthful(log[1], w.tree.leader);
      assert log[1].SignalCall? && log[1].target.ToLeader? ==> Refused(log[0]);
    }
  }

  lemma TimedOutCalls(p: PreparedProcess, w: World, r: NativeRunResult, started: nat, log: seq<Call>)
    requires Outcome(p, w, r, started, log) && r.timedOut
    ensures Born(w) && log != [] && log[0].SignalCall? && log[0].sig == SIGTERM && log[0].target.ToGroup? && SilentOnceGone(log)
  {
    assert RunningVerdict(p, r, log, started, w);
  }

  /** So in every timed-out run the leader gets SIGTERM, unless at that moment it was dead, had moved
      itself, or could not be signalled. */
  lemma LeaderIsTerminated(p: PreparedProcess, w: World, r: NativeRunResult, started: nat, log: seq<Call>)
    requires Outcome(p, w, r, started, log) && r.timedOut
    ensures var l, t := w.tree.leader, log[0].seen;
            Terminated(log, l) || !t.Runs(l) || t.left || !t.procs[l].permitted
  {
    LeaderMissedExactly(p, w, r, started, log);
    var l, t := w.tree.leader, log[0].seen;
    TimedOutCalls(p, w, r, started, log);
    if t.Runs(l) && !t.left && t.procs[l].permitted {
      GroupedLeaderIsReached(p, w, r, started, log, log[0]);
    }
  }

  /** In a timed-out run that finds the group gone, a leader still running elsewhere is never signalled:
      not with its group, not by itself, and not with SIGKILL either. */
  lemma MovedLeaderIsMissed(p: PreparedProcess, w: World, r: NativeRunResult, started: nat, log: seq<Call>)
    requires Outcome(p, w, r, started, log) && r.timedOut && log[0].SignalCall? && log[0].seen.GroupEmpty()
    ensures forall c :: c in log && c.SignalCall? ==> c == log[0]
    ensures forall c :: c in log ==> !K.Hits(c, w.tree.leader)
    ensures log[0].answer == Failed(ESRCH) && (log[0].seen.Runs(w.tree.leader) ==> log[0].seen.left)
  {
    LeaderMissedExactly(p, w, r, started, log);
    EverySignalIsAccounted(p, w, r, started, log);
    TimedOutCalls(p, w, r, started, log);
    hide Outcome;
    assert Truthful(log[0], w.tree.leader);
  }

  /** And a leader can get there: from every world in which its image runs alone, by one setpgid. */
  lemma LeaderCanMoveAway(w: World, group: Pid, sig: Signal)
    requires Inv(w) && Born(w) && w.child.program.Image? && w.tree.Steps(w.tree.leader)
    requires group != w.tree.leader && forall q :: q in w.tree.procs ==> q == w.tree.leader
    ensures var v := Step(w, Elsewhere(MovesTo(w.tree.leader, group)));
            v.tree.Runs(v.tree.leader) && v.tree.GroupEmpty() && K.GroupKilled(v, sig).tree == v.tree
  {
    var t := Step(w, Elsewhere(MovesTo(w.tree.leader, group))).tree;
    assert t.procs[t.leader].group == group;
    assert t.GroupEmpty() && !t.SomePermitted();
  }

  // ---- the success path is open --------------------------------------------------------------

  function Successes(n: nat): seq<Event> {
    if n == 0 then [] else [SetupSucceeds] + Successes(n - 1)
  }

  /** From wherever the leader stands in its setup, if it may still run it can reach its image. */
  lemma {:induction false} SetupCanSucceed(w: World)
    requires Inv(w) && Born(w) && w.child.program.Setup? && w.tree.Steps(w.tree.leader)
    ensures var v := Run(w, Successes(STEPS - w.child.program.pc));
            v.child.program.Image? && v.tree.Steps(v.tree.leader) && v.tree.Member(v.tree.leader)
    decreases STEPS - w.child.program.pc
  {
    var n := STEPS - w.child.program.pc;
    var v := Step(w, SetupSucceeds);
    StepKeeps(w, SetupSucceeds);
    assert Successes(n)[0] == SetupSucceeds && Successes(n)[1..] == Successes(n - 1);
    if n > 1 {
      SetupCanSucceed(v);
    }
  }
}
