/** The native process supervisor, statement by statement, over the kernel's calls. */
module Supervisor {
  import opened Posix
  import opened Descriptors
  import opened ProcessTree
  import opened LeaderProgram
  import opened World
  import opened Kernel

  datatype PreparedProcess = PreparedProcess(
    executable: string, argv: seq<string>, envp: seq<string>, workingDirectory: string,
    stdoutPath: string, stderrPath: string, timeoutMs: int, terminateGraceMs: int,
    limits: NativeResourceLimits)

  datatype NativeRunResult = NativeRunResult(
    exitCode: int, signal: int, timedOut: bool, spawnErrno: int, stage: SpawnStage, durationMs: int)
  {
    predicate Succeeded() {
      stage.Ok? && !timedOut && spawnErrno == 0 && signal == 0 && exitCode == 0
    }
  }

  const FRESH_RESULT := NativeRunResult(-1, 0, false, 0, Ok, 0)

  datatype ErrorPipeRead = ExecSucceeded | ChildFailed | ReadFailed

  datatype ChildFailure = ChildFailure(stage: int, error: int)

  predicate IsAbsolutePath(value: string) {
    value != "" && value[0] == '/'
  }

  /** What the supervisor accepts before it touches anything. */
  predicate Acceptable(p: PreparedProcess) {
    && IsAbsolutePath(p.executable)
    && p.argv != [] && p.argv[0] == p.executable
    && IsAbsolutePath(p.workingDirectory) && IsAbsolutePath(p.stdoutPath) && IsAbsolutePath(p.stderrPath)
    && p.timeoutMs > 0 && p.terminateGraceMs >= 0
  }

  /** Whole milliseconds from `a` to `b`, both in nanoseconds. */
  function Milliseconds(a: nat, b: nat): int {
    (b - a) / NS_PER_MS
  }

  lemma MillisecondsGrow(a: nat, b: nat, c: nat)
    requires b <= c
    ensures Milliseconds(a, b) <= Milliseconds(a, c)
  {
  }

  method ElapsedMs(k: Kernel, started: nat) returns (ms: int)
    requires Inv(k.w) && started <= k.w.now
    modifies k`w
    ensures Inv(k.w) && Later(old(k.w), k.w) && SameOwn(old(k.w), k.w)
    ensures ms == Milliseconds(started, k.w.now)
  {
    hide Inv;
    var now := k.Now();
    ms := (now - started) / NS_PER_MS;
  }

  /** Without a valid status the fields keep their defaults: a zeroed status word would otherwise read
      as a clean exit. */
  function DecodeWaitStatus(result: NativeRunResult, status: int, statusValid: bool): NativeRunResult {
    if !statusValid then result
    else
      var r1 := if WIFEXITED(status) then result.(exitCode := WEXITSTATUS(status)) else result;
      if WIFSIGNALED(status) then r1.(signal := WTERMSIG(status)) else r1
  }

  /** The supervisor has the leader's status word exactly when one of its waits collected the leader. */
  predicate StatusKnown(w: World, status: int, statusValid: bool) {
    && (statusValid <==> w.tree.fate.Reaped?)
    && (statusValid ==> status == StatusWord(w.tree.fate.status))
  }

  /** The result's status fields say how the leader ended, and only if the supervisor reaped it. */
  predicate ReportsFate(r: NativeRunResult, fate: Fate) {
    match fate
    case Reaped(Exited(code)) => r.exitCode == code && r.signal == 0
    case Reaped(Signaled(sig, _)) => r.exitCode == -1 && r.signal == sig
    case _ => r.exitCode == -1 && r.signal == 0
  }

  lemma DecodedReportsFate(w: World, r: NativeRunResult, status: int, statusValid: bool)
    requires Inv(w) && Born(w) && StatusKnown(w, status, statusValid) && r.exitCode == -1 && r.signal == 0
    ensures var d := DecodeWaitStatus(r, status, statusValid);
            && ReportsFate(d, w.tree.fate)
            && d == r.(exitCode := d.exitCode, signal := d.signal)
  {
    if statusValid {
      StatusWordDecodes(w.tree.fate.status);
    }
  }

  /** Reads the failure record. Which of the three answers comes out depends only on how much of the
      record was ever written, unless read itself fails. */
  method ReadChildFailure(k: Kernel) returns (state: ErrorPipeRead, failure: ChildFailure, readError: int)
    requires Inv(k.w) && Born(k.w) && k.w.taken == 0 && !Holds(k.w.fds, PipeWrite)
    modifies k
    ensures Inv(k.w) && Later(old(k.w), k.w)
    ensures SameOwn(old(k.w).(taken := k.w.taken, calls := k.w.calls), k.w)
    ensures state.ChildFailed? ==>
              && k.w.calls == old(k.w).calls
              && k.w.child.program.Reporting? && k.w.child.program.sent == RECORD_SIZE
              && failure == ChildFailure(StageNumber(StageOf(k.w.child.program.pc)), k.w.child.program.error)
    ensures state.ExecSucceeded? ==>
              && k.w.calls == old(k.w).calls && k.w.child.written == []
              && (k.w.child.program.Image? || k.w.tree.Ending().Some?)
    ensures state.ReadFailed? ==>
              || (k.w.calls == old(k.w).calls && readError == EPROTO
                  && 0 < |k.w.child.written| < RECORD_SIZE && k.w.tree.Ending().Some?)
              || (1 <= readError <= 4095 && readError != EINTR && k.w.calls == old(k.w).calls + [ReadFailure(readError)])
  {
    hide Inv, Later, HasWriter;
    var buffer := new byte[RECORD_SIZE](_ => 0);
    var offset := 0;
    state, failure, readError := ChildFailed, ChildFailure(0, 0), 0;
    LaterReflexive(k.w);
    while offset < RECORD_SIZE
      invariant Inv(k.w) && Later(old(k.w), k.w)
      invariant SameOwn(old(k.w).(taken := k.w.taken), k.w)
      invariant state.ChildFailed? && offset == k.w.taken <= RECORD_SIZE
      invariant Filled(buffer[..], k.w.child.written, offset)
      decreases RECORD_SIZE - offset, k.interrupts
    {
      ghost var before := k.w;
      var count, errno := k.Read(buffer, offset);
      LaterTransitive(old(k.w), before, k.w);
      LaterKeepsWritten(before, k.w);
      if count > 0 {
        offset := offset + count;
      } else if count == 0 {
        NoWriterMeansDone(k.w);
        UncollectedIsThere(k.w);
        if offset == 0 {
          state := ExecSucceeded;
        } else {
          state, readError := ReadFailed, EPROTO;
        }
        break;
      } else if errno != EINTR {
        state, readError := ReadFailed, errno;
        break;
      }
    }
    if state.ChildFailed? {
      WholeRecordDecodes(k.w, buffer[..]);
      failure := ChildFailure(IntAt(buffer[..], 0), IntAt(buffer[..], 4));
    }
  }

  lemma LaterKeepsWritten(a: World, b: World)
    requires Later(a, b) && Born(a)
    ensures a.child.written <= b.child.written
  {
  }

  predicate Filled(buffer: seq<byte>, written: seq<byte>, count: nat) {
    count <= |buffer| && count <= |written| && forall i :: 0 <= i < count ==> buffer[i] == written[i]
  }

  /** End of file on the error pipe: the leader is past execve or dead; after part of a record, dead. */
  lemma NoWriterMeansDone(w: World)
    requires Inv(w) && Born(w) && !HasWriter(w)
    ensures w.child.program.Image? || w.tree.Ending().Some?
    ensures w.child.written != [] ==> w.tree.Ending().Some?
  {
    HoldsReportEndUntilExec(w.child);
  }

  lemma WholeRecordDecodes(w: World, bytes: seq<byte>)
    requires Inv(w) && Born(w) && |bytes| == RECORD_SIZE && Filled(bytes, w.child.written, RECORD_SIZE)
    ensures w.child.program.Reporting? && w.child.program.sent == RECORD_SIZE
    ensures IntAt(bytes, 0) == StageNumber(StageOf(w.child.program.pc)) && IntAt(bytes, 4) == w.child.program.error
  {
    RecordDecodes(StageOf(w.child.program.pc), w.child.program.error);
    assert bytes == Record(w.child.program);
  }

  method ProcessGroupExists(k: Kernel) returns (present: bool)
    requires Inv(k.w) && Born(k.w)
    modifies k`w
    ensures Inv(k.w) && Later(old(k.w), k.w) && SameOwn(old(k.w), k.w)
    ensures present <==> !k.w.tree.GroupEmpty()
  {
    hide Inv, Later;
    var answer, errno := k.ProbeGroup();
    if answer == 0 {
      return true;
    }
    return errno == EPERM;
  }

  predicate OnlySignals(calls: seq<Call>, sig: Signal, from: nat, to: nat) {
    forall c :: c in calls ==> c.SignalCall? && c.sig == sig && from <= c.at <= to
  }

  /** A leader that is there and has not moved itself is in its own group. */
  predicate AtHome(t: Tree) {
    t.leader in t.procs && !t.left ==> t.Member(t.leader)
  }

  /** A logged signal has the answer its processes call for, and was sent after both setpgid calls. */
  predicate Truthful(c: Call, leader: Pid) {
    c.SignalCall? ==>
      && c.seen.leader == leader && AtHome(c.seen)
      && c.answer == (if c.target.ToGroup? then GroupAnswer(c.seen) else LeaderAnswer(c.seen))
  }

  /** No member of a group that is there may be signalled. */
  predicate Refused(c: Call) {
    c.SignalCall? && c.target.ToGroup? && c.answer == Failed(EPERM)
  }

  /** The leader is signalled by itself right after its group has been refused, and only then. */
  predicate Paired(calls: seq<Call>) {
    && (forall i :: 0 <= i < |calls| && calls[i].SignalCall? && calls[i].target.ToLeader? ==>
          i > 0 && Refused(calls[i - 1]) && calls[i - 1].sig == calls[i].sig)
    && (forall i :: 0 <= i < |calls| && Refused(calls[i]) ==>
          i + 1 < |calls| && calls[i + 1].SignalCall? && calls[i + 1].target.ToLeader?)
  }

  predicate Accounted(calls: seq<Call>, leader: Pid) {
    Paired(calls) && forall c :: c in calls ==> Truthful(c, leader)
  }

  predicate FoundGone(calls: seq<Call>) {
    calls != [] && calls[0].SignalCall? && calls[0].answer == Failed(ESRCH)
  }

  /** When the first signal finds no group, no other signal is sent, to the group or to the leader. */
  predicate SilentOnceGone(calls: seq<Call>) {
    FoundGone(calls) ==> forall c :: c in calls && c.SignalCall? ==> c == calls[0]
  }

  lemma AccountedConcat(a: seq<Call>, b: seq<Call>, leader: Pid)
    requires Accounted(a, leader) && Accounted(b, leader)
    ensures Accounted(a + b, leader)
  {
    hide Truthful, Refused;
    var all := a + b;
    assert forall i :: 0 <= i < |a| ==> all[i] == a[i];
    assert forall i :: |a| <= i < |all| ==> all[i] == b[i - |a|];
  }

  lemma QuietIsAccounted(calls: seq<Call>, leader: Pid)
    requires forall c :: c in calls ==> !c.SignalCall?
    ensures Accounted(calls, leader)
  {
  }

  /** One signalling on the way from `a` to `b`: the group first, in the world `seen`, and the leader by
      itself, in the world `lead`, if and only if no member of the group may be signalled. */
  ghost predicate Signalling(a: World, sig: Signal, b: World, seen: World, lead: World, log: seq<Call>) {
    && Reaches(a, seen)
    && (if GroupAnswer(seen.tree) == Failed(EPERM) then
          && Reaches(GroupKilled(seen, sig), lead) && Reaches(LeaderKilled(lead, sig), b)
          && log == [GroupCall(seen, sig), LeaderCall(lead, sig)]
        else
          Reaches(GroupKilled(seen, sig), b) && log == [GroupCall(seen, sig)])
  }

  lemma CallsAreTruthful(w: World, sig: Signal)
    requires Inv(w) && Born(w) && w.grouped
    ensures Truthful(GroupCall(w, sig), w.tree.leader) && Truthful(LeaderCall(w, sig), w.tree.leader)
  {
    assert AtHome(w.tree);
    hide Inv, AtHome, GroupAnswer, LeaderAnswer;
  }

  lemma OneCall(c: Call, leader: Pid)
    requires c.SignalCall? && c.target.ToGroup? && !Refused(c) && Truthful(c, leader)
    ensures Accounted([c], leader)
  {
    hide Truthful;
  }

  lemma TwoCalls(c: Call, d: Call, leader: Pid)
    requires Refused(c) && d.SignalCall? && d.target.ToLeader? && d.sig == c.sig && Truthful(c, leader) && Truthful(d, leader)
    ensures Accounted([c, d], leader)
  {
    hide Truthful;
  }

  /** Signals the group, and the leader alone when no member of the group may be signalled. Whom that
      reaches, and with which answers, is in the two worlds it is done in. */
  method SignalProcessGroup(k: Kernel, sig: Signal) returns (ghost log: seq<Call>, ghost seen: World, ghost lead: World)
    requires Inv(k.w) && Born(k.w) && k.w.grouped
    modifies k`w
    ensures Signalling(old(k.w), sig, k.w, seen, lead, log) && Accounted(log, old(k.w).tree.leader)
    ensures Inv(k.w) && Later(old(k.w), k.w) && old(k.w).now <= k.w.now
    ensures SameOwn(old(k.w).(calls := old(k.w).calls + log), k.w)
    ensures log != [] && log[0].SignalCall? && log[0].target.ToGroup? && OnlySignals(log, sig, old(k.w).now, k.w.now)
    ensures SilentOnceGone(log) && (FoundGone(log) ==> k.w.tree.GroupEmpty())
    ensures sig == SIGKILL ==> k.w.tree.Contained()
  {
    hide Inv, Later, Reaches, GroupKilled, LeaderKilled, GroupAnswer, LeaderAnswer, Accounted, Truthful;
    var answer, errno;
    answer, errno, seen := k.KillGroup(sig);
    EntryStays(old(k.w), seen);
    CallsAreTruthful(seen, sig);
    GroupAnswers(seen.tree);
    LaterStaysContained(seen, k.w);
    lead := seen;
    log := [GroupCall(seen, sig)];
    if answer == 0 || errno == ESRCH {
      OneCall(log[0], old(k.w).tree.leader);
      return;
    }
    ghost var mid := k.w;
    EntryStays(old(k.w), mid);
    answer, errno, lead := k.KillLeader(sig);
    EntryStays(mid, lead);
    CallsAreTruthful(lead, sig);
    ReachesTransitive(GroupKilled(seen, sig), mid, lead);
    log := [GroupCall(seen, sig), LeaderCall(lead, sig)];
    TwoCalls(log[0], log[1], old(k.w).tree.leader);
    assert old(k.w).calls + [log[0]] + [log[1]] == old(k.w).calls + log;
    LaterTransitive(old(k.w), mid, k.w);
    LaterStaysContained(mid, k.w);
  }

  lemma GroupAnswers(t: Tree)
    ensures var a := GroupAnswer(t); a == Success || a == Failed(EPERM) || (a == Failed(ESRCH) && t.GroupEmpty())
  {
  }

  /** Nothing but the log, the sleeps and the leader's fate has changed on the supervisor's side. */
  predicate OnlyWaited(a: World, log: seq<Call>, b: World) {
    SameOwn(a.(calls := a.calls + log, naps := b.naps, tree := a.tree.(fate := b.tree.fate)), b)
  }

  function FailedWait(error: int): seq<Call>
    requires error == 0 || 1 <= error <= 4095
  {
    if error == 0 then [] else [WaitFailure(error)]
  }

  method ReapLeaderNonblocking(k: Kernel, status: int, statusValid: bool)
    returns (reaped: bool, newStatus: int, newValid: bool, waitError: int)
    requires Inv(k.w) && Born(k.w) && StatusKnown(k.w, status, statusValid)
    modifies k
    ensures Inv(k.w) && Later(old(k.w), k.w) && k.w.naps == old(k.w).naps
    ensures StatusKnown(k.w, newStatus, newValid) && (reaped ==> newValid)
    ensures waitError == 0 || 1 <= waitError <= 4095
    ensures OnlyWaited(old(k.w), FailedWait(waitError), k.w)
  {
    hide Inv, Later;
    newStatus, newValid, waitError := status, statusValid, 0;
    LaterReflexive(k.w);
    while true
      invariant Inv(k.w) && Later(old(k.w), k.w) && k.interrupts <= old(k.interrupts)
      invariant SameOwn(old(k.w).(tree := old(k.w).tree.(fate := k.w.tree.fate)), k.w)
      invariant StatusKnown(k.w, newStatus, newValid) && newValid == statusValid && waitError == 0
      decreases k.interrupts
    {
      ghost var before := k.w;
      var waited, word, errno := k.Wait(true);
      LaterTransitive(old(k.w), before, k.w);
      if waited > 0 {
        return true, word, true, 0;
      }
      if waited == 0 {
        return false, newStatus, newValid, 0;
      }
      if errno == EINTR {
        continue;
      }
      return false, newStatus, newValid, errno;
    }
  }

  /** The supervisor's blocking wait: again after every interruption. */
  method WaitForLeader(k: Kernel) returns (waited: int, status: int, errno: int)
    requires Inv(k.w) && Born(k.w)
    modifies k
    ensures Inv(k.w) && Later(old(k.w), k.w)
    ensures SameOwn(old(k.w).(calls := k.w.calls, tree := old(k.w).tree.(fate := k.w.tree.fate)), k.w)
    ensures waited > 0 ==> k.w.calls == old(k.w).calls && StatusKnown(k.w, status, true)
    ensures waited <= 0 ==> 1 <= errno <= 4095 && k.w.calls == old(k.w).calls + [WaitFailure(errno)]
    ensures waited <= 0 && !old(k.w).tree.fate.Reaped? ==> !k.w.tree.fate.Reaped?
  {
    hide Inv, Later;
    waited, status, errno := -1, 0, EINTR;
    LaterReflexive(k.w);
    while errno == EINTR
      invariant Inv(k.w) && Later(old(k.w), k.w)
      invariant SameOwn(old(k.w).(calls := k.w.calls, tree := old(k.w).tree.(fate := k.w.tree.fate)), k.w)
      invariant waited > 0 ==> k.w.calls == old(k.w).calls && StatusKnown(k.w, status, true) && errno != EINTR
      invariant waited <= 0 ==> if errno == EINTR then k.w.calls == old(k.w).calls
                                else 1 <= errno <= 4095 && k.w.calls == old(k.w).calls + [WaitFailure(errno)]
      invariant waited <= 0 && !old(k.w).tree.fate.Reaped? ==> !k.w.tree.fate.Reaped?
      decreases errno == EINTR, k.interrupts
    {
      ghost var top := k.w;
      waited, status, errno := k.Wait(false);
      LaterTransitive(old(k.w), top, k.w);
    }
  }

  /** A leader that still runs has SIGKILL pending, or may not be signalled, or has left its group. */
  predicate KilledOrAway(t: Tree) {
    t.Runs(t.leader) ==>
      var q := t.procs[t.leader]; SIGKILL in q.pending || !q.permitted || q.group != t.leader || q.returned
  }

  lemma ContainedLeaderIsKilledOrAway(t: Tree)
    ensures t.Contained() ==> KilledOrAway(t)
  {
  }

  /** The blocking wait that follows a kill. Its precondition is the only reason for it to last: nothing
      but a leader beyond the supervisor's reach can hold run_process past its time. */
  method WaitForKilledLeader(k: Kernel) returns (waited: int, status: int, errno: int)
    requires Inv(k.w) && Born(k.w) && KilledOrAway(k.w.tree)
    modifies k
    ensures Inv(k.w) && Later(old(k.w), k.w)
    ensures SameOwn(old(k.w).(calls := k.w.calls, tree := old(k.w).tree.(fate := k.w.tree.fate)), k.w)
    ensures waited > 0 ==> k.w.calls == old(k.w).calls && StatusKnown(k.w, status, true)
    ensures waited <= 0 ==> 1 <= errno <= 4095 && k.w.calls == old(k.w).calls + [WaitFailure(errno)]
    ensures waited <= 0 && !old(k.w).tree.fate.Reaped? ==> !k.w.tree.fate.Reaped?
  {
    hide *;
    waited, status, errno := WaitForLeader(k);
  }

  function Max(a: int, b: int): int {
    if a < b then b else a
  }

  /** How many 10 ms sleeps fit before `ms` milliseconds are over, the last one overshooting. */
  function NapsWithin(ms: int): nat {
    if ms <= 0 then 0 else (ms + 9) / 10
  }

  /** The calls a termination makes: SIGTERM to the group first; no SIGKILL before the grace period is
      over; besides signals only failed waits. Each signal went to whom the kernel found, and is answered
      for. */
  predicate TerminationCalls(calls: seq<Call>, leader: Pid, graceMs: int, from: nat, to: nat) {
    && Accounted(calls, leader)
    && calls != [] && calls[0].SignalCall? && calls[0].sig == SIGTERM && calls[0].target.ToGroup? && from <= calls[0].at
    && SilentOnceGone(calls)
    && (forall c :: c in calls ==>
          || c.WaitFailure?
          || (c.SignalCall? && c.at <= to && (c.sig == SIGTERM || c.sig == SIGKILL)
              && (c.sig == SIGKILL ==> c.at >= calls[0].at + Max(0, graceMs) * NS_PER_MS)))
  }

  /** The error of the last wait that failed, 0 if none did, not counting those that failed because there
      was nothing to wait for. */
  predicate SumsUpWaits(waitError: int, calls: seq<Call>) {
    if waitError == 0 then forall i :: 0 <= i < |calls| && calls[i].WaitFailure? ==> calls[i].error == ECHILD
    else waitError != ECHILD && exists i :: 0 <= i < |calls| && LastWait(waitError, calls, i)
  }

  predicate LastWait(waitError: int, calls: seq<Call>, i: nat) {
    && i < |calls| && calls[i].WaitFailure? && calls[i].error == waitError
    && forall j :: i < j < |calls| && calls[j].WaitFailure? ==> calls[j].error == ECHILD
  }

  predicate Killed(calls: seq<Call>) {
    exists c :: c in calls && c.SignalCall? && c.sig == SIGKILL
  }

  lemma Signalled(a: World, log: seq<Call>, b: World)
    requires SameOwn(a.(calls := a.calls + log), b)
    ensures OnlyWaited(a, log, b) && (Born(a) <==> Born(b)) && b.grouped == a.grouped && b.naps == a.naps
    ensures a.tree.fate.Reaped? || b.tree.fate.Reaped? ==> a.tree.fate == b.tree.fate
  {
  }

  /** One more stretch of the way from `a` by `b` to `c`. */
  lemma Onward(a: World, log: seq<Call>, b: World, more: seq<Call>, c: World)
    requires Later(a, b) && Later(b, c) && OnlyWaited(a, log, b)
    requires OnlyWaited(b, more, c) || (more == [] && (SameOwn(b, c) || SameOwn(b.(naps := b.naps + 1), c)))
    ensures Later(a, c) && OnlyWaited(a, log + more, c) && b.now <= c.now
    ensures more == [] ==> OnlyWaited(a, log, c)
    ensures (Born(c) <==> Born(b)) && c.grouped == b.grouped
    ensures Born(b) && b.grouped && b.tree.GroupEmpty() ==> c.tree.GroupEmpty()
    ensures SameOwn(b, c) ==> c.naps == b.naps
    ensures SameOwn(b.(naps := b.naps + 1), c) ==> c.naps == b.naps + 1
    ensures SameOwn(b, c) || SameOwn(b.(naps := b.naps + 1), c) ==>
              (b.tree.fate.Reaped? || c.tree.fate.Reaped? ==> b.tree.fate == c.tree.fate)
  {
    LaterTransitive(a, b, c);
    assert log + [] == log && b.calls + [] == b.calls;
  }

  /** One look during the grace period: the leader is reaped if it can be, and the answer is whether it
      has been and its group is empty. */
  method ReapAndProbe(k: Kernel, status: int, statusValid: bool)
    returns (gone: bool, newStatus: int, newValid: bool, localError: int)
    requires Inv(k.w) && Born(k.w) && StatusKnown(k.w, status, statusValid)
    modifies k
    ensures localError == 0 || 1 <= localError <= 4095
    ensures Inv(k.w) && Later(old(k.w), k.w) && OnlyWaited(old(k.w), FailedWait(localError), k.w)
    ensures k.w.naps == old(k.w).naps
    ensures StatusKnown(k.w, newStatus, newValid)
    ensures gone ==> newValid && k.w.tree.GroupEmpty()
  {
    hide Inv, Later;
    gone, newStatus, newValid, localError := false, status, statusValid, 0;
    LaterReflexive(k.w);
    if !newValid {
      var reaped;
      reaped, newStatus, newValid, localError := ReapLeaderNonblocking(k, newStatus, newValid);
    }
    if newValid {
      ghost var reaping := k.w;
      var present := ProcessGroupExists(k);
      LaterTransitive(old(k.w), reaping, k.w);
      gone := !present;
    }
  }

  /** SIGTERM, and the clock read after it. */
  method BeginGrace(k: Kernel) returns (graceStarted: nat, elapsed: int, ghost log: seq<Call>)
    requires Inv(k.w) && Born(k.w) && k.w.grouped
    modifies k
    ensures Inv(k.w) && Later(old(k.w), k.w) && OnlyWaited(old(k.w), log, k.w) && k.w.naps == old(k.w).naps
    ensures Born(k.w) && k.w.grouped && (old(k.w).tree.fate.Reaped? || k.w.tree.fate.Reaped? ==> k.w.tree.fate == old(k.w).tree.fate)
    ensures graceStarted <= k.w.now && elapsed == Milliseconds(graceStarted, k.w.now)
    ensures GraceCalls(log, old(k.w).tree.leader, old(k.w).now, graceStarted) && SumsUpWaits(0, log)
    ensures log != [] && (FoundGone(log) ==> k.w.tree.GroupEmpty())
  {
    hide Inv, Later, GraceCalls, SumsUpWaits, OnlySignals, SameOwn, OnlyWaited, Signalling, Accounted, FoundGone, SilentOnceGone;
    ghost var seen, lead;
    log, seen, lead := SignalProcessGroup(k, SIGTERM);
    ghost var signalled := k.w;
    Signalled(old(k.w), log, k.w);
    graceStarted := k.Now();
    Onward(old(k.w), log, signalled, [], k.w);
    GraceBegins(log, old(k.w).tree.leader, old(k.w).now, signalled.now, graceStarted);
    ghost var first := k.w;
    elapsed := ElapsedMs(k, graceStarted);
    Onward(old(k.w), log, first, [], k.w);
  }

  /** SIGTERM and the grace period, cut short once the leader is reaped and its group empty. */
  method AwaitGrace(k: Kernel, graceMs: int, status: int, statusValid: bool)
    returns (emptied: bool, newStatus: int, newValid: bool, waitError: int, graceStarted: nat, ghost log: seq<Call>)
    requires Inv(k.w) && Born(k.w) && k.w.grouped && StatusKnown(k.w, status, statusValid)
    modifies k
    ensures Inv(k.w) && Later(old(k.w), k.w) && OnlyWaited(old(k.w), log, k.w)
    ensures StatusKnown(k.w, newStatus, newValid)
    ensures GraceCalls(log, old(k.w).tree.leader, old(k.w).now, graceStarted) && SumsUpWaits(waitError, log)
    ensures k.w.naps <= old(k.w).naps + NapsWithin(graceMs) && graceStarted <= k.w.now
    ensures emptied || FoundGone(log) ==> k.w.tree.GroupEmpty()
    ensures emptied ==> newValid
    ensures !emptied ==> Milliseconds(graceStarted, k.w.now) >= Max(0, graceMs)
  {
    hide Inv, Later, GraceCalls, SumsUpWaits, OnlySignals, SameOwn, OnlyWaited, Signalling, Accounted, FoundGone, SilentOnceGone;
    emptied, newStatus, newValid, waitError := false, status, statusValid, 0;
    var elapsed;
    graceStarted, elapsed, log := BeginGrace(k);
    ghost var gone := FoundGone(log);
    while elapsed < Max(0, graceMs)
      invariant Inv(k.w) && Later(old(k.w), k.w) && OnlyWaited(old(k.w), log, k.w) && Born(k.w) && k.w.grouped
      invariant StatusKnown(k.w, newStatus, newValid)
      invariant GraceCalls(log, old(k.w).tree.leader, old(k.w).now, graceStarted) && SumsUpWaits(waitError, log) && !emptied
      invariant graceStarted <= k.w.now && elapsed == Milliseconds(graceStarted, k.w.now)
      invariant NapsSoFar(k.w.naps - old(k.w).naps, elapsed, graceMs)
      invariant log != [] && (FoundGone(log) <==> gone) && (gone ==> k.w.tree.GroupEmpty())
      decreases Max(0, graceMs) * NS_PER_MS - (k.w.now - graceStarted)
    {
      ghost var top := k.w;
      var localError;
      emptied, newStatus, newValid, localError := ReapAndProbe(k, newStatus, newValid);
      Onward(old(k.w), log, top, FailedWait(localError), k.w);
      if localError != 0 {
        GraceWaits(log, localError, waitError, old(k.w).tree.leader, old(k.w).now, graceStarted);
        log := log + FailedWait(localError);
        waitError := if localError != ECHILD then localError else waitError;
      }
      if emptied {
        break;
      }
      ghost var probed := k.w;
      k.Sleep(10);
      Onward(old(k.w), log, probed, [], k.w);
      ghost var slept := k.w;
      elapsed := ElapsedMs(k, graceStarted);
      Onward(old(k.w), log, slept, [], k.w);
    }
  }

  /** SIGTERM, the grace period, then SIGKILL; on return the group is contained, whatever happened. */
  method TerminateProcessGroup(k: Kernel, graceMs: int, status: int, statusValid: bool)
    returns (newStatus: int, newValid: bool, waitError: int, ghost log: seq<Call>)
    requires Inv(k.w) && Born(k.w) && k.w.grouped && StatusKnown(k.w, status, statusValid)
    modifies k
    ensures Inv(k.w) && Later(old(k.w), k.w) && OnlyWaited(old(k.w), log, k.w)
    ensures StatusKnown(k.w, newStatus, newValid)
    ensures k.w.naps <= old(k.w).naps + NapsWithin(graceMs)
    ensures TerminationCalls(log, old(k.w).tree.leader, graceMs, old(k.w).now, k.w.now) && SumsUpWaits(waitError, log)
    ensures newValid || exists c :: c in log && c.WaitFailure?
    ensures k.w.tree.Contained() && (Killed(log) || k.w.tree.GroupEmpty())
  {
    hide Inv, Later, GraceCalls, TerminationCalls, SumsUpWaits, OnlySignals, Milliseconds, NapsWithin, Signalling, Accounted;
    ghost var leader := k.w.tree.leader;
    var emptied, graceStarted;
    emptied, newStatus, newValid, waitError, graceStarted, log := AwaitGrace(k, graceMs, status, statusValid);
    EmptyIsContained(k.w.tree);
    ClockGoesOn(old(k.w), k.w);
    if emptied {
      NothingSignalled(leader, k.w.now, k.w.now);
      GraceThenKills(log, [], waitError, leader, graceMs, old(k.w).now, graceStarted, k.w.now, k.w.now);
      assert log + [] == log;
      return;
    }

    ghost var graceOver := k.w;
    var present := ProcessGroupExists(k);
    LaterTransitive(old(k.w), graceOver, k.w);
    LaterStaysContained(graceOver, k.w);
    ClockGoesOn(graceOver, k.w);
    EmptyIsContained(k.w.tree);
    ghost var probed, kills := k.w, [];
    if present {
      ghost var seen, lead;
      EntryStays(old(k.w), k.w);
      kills, seen, lead := SignalProcessGroup(k, SIGKILL);
      LaterTransitive(old(k.w), probed, k.w);
    }
    NothingSignalled(leader, probed.now, k.w.now);
    MillisecondsGrow(graceStarted, graceOver.now, probed.now);
    GraceThenKills(log, kills, waitError, leader, graceMs, old(k.w).now, graceStarted, probed.now, k.w.now);
    log := log + kills;

    if !newValid {
      ghost var killed := k.w;
      ContainedLeaderIsKilledOrAway(k.w.tree);
      var waited, word, errno := WaitForKilledLeader(k);
      LaterTransitive(old(k.w), killed, k.w);
      LaterStaysContained(killed, k.w);
      ClockGoesOn(killed, k.w);
      TerminationWaits(log, if waited > 0 then EIO else errno, leader, graceMs, old(k.w).now, killed.now, k.w.now);
      if waited > 0 {
        newStatus, newValid := word, true;
      } else {
        OneMoreWait(waitError, log, errno);
        log := log + [WaitFailure(errno)];
        assert log[|log| - 1].WaitFailure?;
        if errno != ECHILD {
          waitError := errno;
        }
      }
    }
  }

  lemma OneMoreWait(waitError: int, calls: seq<Call>, error: Errno)
    requires SumsUpWaits(waitError, calls)
    ensures SumsUpWaits(if error == ECHILD then waitError else error, calls + [WaitFailure(error)])
  {
    var all := calls + [WaitFailure(error)];
    assert all[|calls|] == WaitFailure(error);
    if error != ECHILD {
      assert LastWait(error, all, |calls|);
    } else if waitError != 0 {
      var i :| 0 <= i < |calls| && LastWait(waitError, calls, i);
      assert LastWait(waitError, all, i);
    }
  }

  lemma EmptyIsContained(t: Tree)
    ensures t.GroupEmpty() ==> t.Contained()
  {
  }

  /** The calls made up to the end of the grace period: SIGTERM, and waits that failed. */
  predicate GraceCalls(calls: seq<Call>, leader: Pid, from: nat, graceStarted: nat) {
    && Accounted(calls, leader)
    && calls != [] && calls[0].SignalCall? && calls[0].sig == SIGTERM && calls[0].target.ToGroup?
    && from <= calls[0].at
    && (forall c :: c in calls ==> c.WaitFailure? || (c.SignalCall? && c.sig == SIGTERM && c.at <= graceStarted))
    && SilentOnceGone(calls)
  }

  lemma GraceBegins(log: seq<Call>, leader: Pid, from: nat, signalled: nat, graceStarted: nat)
    requires Accounted(log, leader) && SilentOnceGone(log)
    requires log != [] && log[0].SignalCall? && log[0].target.ToGroup?
    requires OnlySignals(log, SIGTERM, from, signalled) && signalled <= graceStarted
    ensures GraceCalls(log, leader, from, graceStarted) && SumsUpWaits(0, log)
  {
    assert log[0] in log;
  }

  lemma GraceWaits(log: seq<Call>, error: Errno, waitError: int, leader: Pid, from: nat, graceStarted: nat)
    requires GraceCalls(log, leader, from, graceStarted) && SumsUpWaits(waitError, log)
    ensures GraceCalls(log + [WaitFailure(error)], leader, from, graceStarted)
    ensures SumsUpWaits(if error == ECHILD then waitError else error, log + [WaitFailure(error)])
    ensures FoundGone(log + [WaitFailure(error)]) <==> FoundGone(log)
  {
    hide Accounted;
    QuietIsAccounted(FailedWait(error), leader);
    AccountedConcat(log, FailedWait(error), leader);
    OneMoreWait(waitError, log, error);
  }

  lemma NothingSignalled(leader: Pid, from: nat, to: nat)
    ensures Accounted([], leader) && OnlySignals([], SIGKILL, from, to)
  {
  }

  lemma TerminationWaits(log: seq<Call>, error: Errno, leader: Pid, graceMs: int, from: nat, to: nat, later: nat)
    requires TerminationCalls(log, leader, graceMs, from, to) && to <= later
    ensures TerminationCalls(log, leader, graceMs, from, later)
    ensures TerminationCalls(log + [WaitFailure(error)], leader, graceMs, from, later)
    ensures Killed(log) ==> Killed(log + [WaitFailure(error)])
  {
    hide Accounted;
    QuietIsAccounted(FailedWait(error), leader);
    AccountedConcat(log, FailedWait(error), leader);
    if Killed(log) {
      var c :| c in log && c.SignalCall? && c.sig == SIGKILL;
      assert c in log + [WaitFailure(error)];
    }
  }

  lemma GraceThenKills(grace: seq<Call>, kills: seq<Call>, waitError: int, leader: Pid, graceMs: int,
                       from: nat, graceStarted: nat, graceOver: nat, to: nat)
    requires GraceCalls(grace, leader, from, graceStarted) && Accounted(kills, leader)
    requires OnlySignals(kills, SIGKILL, graceOver, to) && graceOver <= to && (FoundGone(grace) ==> kills == [])
    requires graceStarted <= graceOver && (kills != [] ==> Milliseconds(graceStarted, graceOver) >= Max(0, graceMs))
    requires SumsUpWaits(waitError, grace)
    ensures TerminationCalls(grace + kills, leader, graceMs, from, to) && SumsUpWaits(waitError, grace + kills)
    ensures kills != [] ==> Killed(grace + kills)
  {
    hide Accounted;
    AccountedConcat(grace, kills, leader);
    assert grace[0] in grace;
    assert kills != [] ==> graceOver >= graceStarted + Max(0, graceMs) * NS_PER_MS;
    if kills != [] {
      assert kills[0] in kills && kills[0] in grace + kills;
    }
    assert forall j :: |grace| <= j < |grace + kills| ==> (grace + kills)[j] in kills;
    if waitError != 0 {
      var i :| 0 <= i < |grace| && LastWait(waitError, grace, i);
      assert LastWait(waitError, grace + kills, i);
    }
  }

  predicate NapsSoFar(naps: int, elapsed: int, ms: int) {
    0 <= naps && 10 * naps <= elapsed && (naps > 0 ==> 10 * (naps - 1) < ms)
  }

  // ---- run_process after the fork ------------------------------------------------------------

  /** The last lines of every way out after the fork: decode the status, take the time. */
  method Conclude(k: Kernel, result: NativeRunResult, status: int, statusValid: bool, started: nat)
    returns (final: NativeRunResult)
    requires Inv(k.w) && Born(k.w) && StatusKnown(k.w, status, statusValid) && started <= k.w.now
    requires result.exitCode == -1 && result.signal == 0
    modifies k`w
    ensures Inv(k.w) && Later(old(k.w), k.w) && SameOwn(old(k.w), k.w) && old(k.w).now <= k.w.now
    ensures ReportsFate(final, k.w.tree.fate)
    ensures final == result.(exitCode := final.exitCode, signal := final.signal, durationMs := final.durationMs)
    ensures final.durationMs == Milliseconds(started, k.w.now)
    ensures k.w.grouped && old(k.w).tree.Contained() ==> k.w.tree.Contained()
    ensures k.w.grouped && old(k.w).tree.GroupEmpty() ==> k.w.tree.GroupEmpty()
  {
    hide Inv, Later;
    DecodedReportsFate(k.w, result, status, statusValid);
    var decoded := DecodeWaitStatus(result, status, statusValid);
    var elapsed := ElapsedMs(k, started);
    ClockGoesOn(old(k.w), k.w);
    if k.w.grouped {
      LaterStaysContained(old(k.w), k.w);
    }
    final := decoded.(durationMs := elapsed);
  }

  /** The leader has reported a failed step: collect it. */
  method FinishReported(k: Kernel, started: nat, failure: ChildFailure) returns (result: NativeRunResult, ghost log: seq<Call>)
    requires Inv(k.w) && Born(k.w) && !k.w.tree.fate.Reaped?
    requires started <= k.w.now && 0 <= failure.stage < |STAGES| && failure.error > 0
    modifies k
    ensures Inv(k.w) && Later(old(k.w), k.w) && ReportsFate(result, k.w.tree.fate)
    ensures result.stage == STAGES[failure.stage] && result.spawnErrno == failure.error && !result.timedOut
    ensures result.durationMs == Milliseconds(started, k.w.now) && k.w.naps == old(k.w).naps
    ensures k.w.calls == old(k.w).calls + log && k.w.fds == old(k.w).fds
    ensures if k.w.tree.fate.Reaped? then log == [] else |log| == 1 && log[0].WaitFailure?
  {
    hide Inv, Later;
    result := FRESH_RESULT.(stage := STAGES[failure.stage], spawnErrno := failure.error);
    var statusValid := false;
    var waited, status, errno := WaitForLeader(k);
    log := if waited > 0 then [] else FailedWait(errno);
    if waited > 0 {
      statusValid := true;
    } else if result.spawnErrno == 0 {
      result := result.(spawnErrno := errno, stage := SpawnStage.Waitpid);
    }
    ghost var waitedWorld := k.w;
    ClockGoesOn(old(k.w), k.w);
    result := Conclude(k, result, status, statusValid, started);
    LaterTransitive(old(k.w), waitedWorld, k.w);
  }

  /** The error pipe could not be read to an answer: kill whatever there is, then collect the leader. */
  method FinishUnreadable(k: Kernel, started: nat, pipeError: int) returns (result: NativeRunResult, ghost log: seq<Call>)
    requires Inv(k.w) && Born(k.w) && k.w.grouped && !k.w.tree.fate.Reaped? && started <= k.w.now
    modifies k
    ensures Inv(k.w) && Later(old(k.w), k.w) && ReportsFate(result, k.w.tree.fate) && k.w.tree.Contained()
    ensures result.stage.ErrorPipe? && result.spawnErrno == pipeError && !result.timedOut
    ensures result.durationMs == Milliseconds(started, k.w.now) && k.w.naps == old(k.w).naps && k.w.fds == old(k.w).fds
    ensures k.w.calls == old(k.w).calls + log && Killed(log) && Accounted(log, old(k.w).tree.leader)
    ensures log != [] && log[0].SignalCall? && log[0].target.ToGroup?
    ensures forall c :: c in log ==> c.WaitFailure? || (c.SignalCall? && c.sig == SIGKILL)
    ensures k.w.tree.fate.Reaped? || exists c :: c in log && c.WaitFailure?
  {
    hide Inv, Later;
    result := FRESH_RESULT.(stage := SpawnStage.ErrorPipe, spawnErrno := pipeError);
    ghost var seen, lead;
    log, seen, lead := SignalProcessGroup(k, SIGKILL);
    ghost var killed, leader := k.w, old(k.w).tree.leader;
    assert Killed(log) by { assert log[0] in log; }
    hide Accounted;
    ContainedLeaderIsKilledOrAway(k.w.tree);
    var waited, status, errno := WaitForKilledLeader(k);
    LaterTransitive(old(k.w), killed, k.w);
    LaterStaysContained(killed, k.w);
    ClockGoesOn(killed, k.w);
    if waited <= 0 {
      TerminationTail(log, errno);
      QuietIsAccounted(FailedWait(errno), leader);
      AccountedConcat(log, FailedWait(errno), leader);
      log := log + [WaitFailure(errno)];
    }
    ghost var waitedWorld := k.w;
    result := Conclude(k, result, status, waited > 0, started);
    LaterTransitive(old(k.w), waitedWorld, k.w);
  }

  lemma TerminationTail(log: seq<Call>, error: Errno)
    ensures Killed(log) ==> Killed(log + [WaitFailure(error)])
    ensures exists c :: c in log + [WaitFailure(error)] && c.WaitFailure?
  {
    var all := log + [WaitFailure(error)];
    assert all[|log|] in all;
    if Killed(log) {
      var c :| c in log && c.SignalCall? && c.sig == SIGKILL;
      assert c in all;
    }
  }

  /** Polls the leader every 10 ms: its pid once collected, -1 when a wait failed, 0 when time is up. */
  method PollLeader(k: Kernel, started: nat, timeoutMs: int) returns (waited: int, status: int, errno: int)
    requires Inv(k.w) && Born(k.w) && !k.w.tree.fate.Reaped? && started <= k.w.now && timeoutMs > 0
    modifies k
    ensures Inv(k.w) && Later(old(k.w), k.w)
    ensures waited < 0 ==> 1 <= errno <= 4095
    ensures OnlyWaited(old(k.w), if waited < 0 then FailedWait(errno) else [], k.w)
    ensures waited > 0 ==> StatusKnown(k.w, status, true)
    ensures waited <= 0 ==> StatusKnown(k.w, 0, false)
    ensures waited == 0 ==> Milliseconds(started, k.w.now) >= timeoutMs
    ensures k.w.naps <= old(k.w).naps + NapsWithin(timeoutMs)
  {
    hide Inv, Later;
    waited, status, errno := 0, 0, 0;
    LaterReflexive(k.w);
    assert old(k.w).calls + [] == old(k.w).calls;
    while true
      invariant Inv(k.w) && Later(old(k.w), k.w) && OnlyWaited(old(k.w), [], k.w)
      invariant !k.w.tree.fate.Reaped? && started <= k.w.now
      invariant NapsSoFar(k.w.naps - old(k.w).naps, Milliseconds(started, k.w.now), timeoutMs)
      decreases Max(0, timeoutMs * NS_PER_MS - (k.w.now - started)), k.interrupts
    {
      ghost var top := k.w;
      waited, status, errno := k.Wait(true);
      LaterTransitive(old(k.w), top, k.w);
      ClockGoesOn(top, k.w);
      if waited > 0 {
        break;
      }
      if waited < 0 {
        if errno == EINTR {
          continue;
        }
        break;
      }
      ghost var polled := k.w;
      var elapsed := ElapsedMs(k, started);
      LaterTransitive(old(k.w), polled, k.w);
      ClockGoesOn(polled, k.w);
      if elapsed >= timeoutMs {
        break;
      }
      ghost var checked := k.w;
      k.Sleep(10);
      LaterTransitive(old(k.w), checked, k.w);
    }
  }

  /** What the running leader's stage must account for, given the calls made since it was started. */
  predicate RunningVerdict(p: PreparedProcess, r: NativeRunResult, log: seq<Call>, started: nat, w: World) {
    match r.stage
    case Ok => log == [] && r.spawnErrno == 0 && w.tree.fate.Reaped?
    case Waitpid =>
      && log != [] && log[0].WaitFailure? && log[0].error == r.spawnErrno
      && TerminationCalls(log[1..], w.tree.leader, 0, started, w.now) && w.tree.Contained()
      && (Killed(log[1..]) || w.tree.GroupEmpty())
    case TimeoutKill =>
      && TerminationCalls(log, w.tree.leader, p.terminateGraceMs, started + Max(0, p.timeoutMs) * NS_PER_MS, w.now) && w.tree.Contained()
      && (Killed(log) || w.tree.GroupEmpty())
      && SumsUpWaits(r.spawnErrno, log)
    case _ => false
  }

  /** A wait failed while polling: terminate without grace. */
  method StopAfterFailure(k: Kernel, p: PreparedProcess, started: nat, errno: int)
    returns (result: NativeRunResult, status: int, statusValid: bool, ghost log: seq<Call>)
    requires Inv(k.w) && Born(k.w) && k.w.grouped && started <= k.w.now && 1 <= errno <= 4095
    requires StatusKnown(k.w, 0, false)
    modifies k
    ensures Inv(k.w) && Later(old(k.w), k.w) && OnlyWaited(old(k.w), log, k.w) && old(k.w).now <= k.w.now
    ensures StatusKnown(k.w, status, statusValid) && result == FRESH_RESULT.(stage := SpawnStage.Waitpid, spawnErrno := errno)
    ensures RunningVerdict(p, result, FailedWait(errno) + log, started, k.w)
    ensures k.w.naps <= old(k.w).naps + NapsWithin(p.terminateGraceMs)
  {
    assert NapsWithin(0) == 0;
    hide *;
    result := FRESH_RESULT.(stage := SpawnStage.Waitpid, spawnErrno := errno);
    var waitError;
    status, statusValid, waitError, log := TerminateProcessGroup(k, 0, 0, false);
    ClockGoesOn(old(k.w), k.w);
    EntryStays(old(k.w), k.w);
    FailureVerdict(p, result, log, started, old(k.w).now, k.w);
  }

  lemma FailureVerdict(p: PreparedProcess, r: NativeRunResult, log: seq<Call>, started: nat, from: nat, w: World)
    requires r.stage.Waitpid? && 1 <= r.spawnErrno <= 4095 && started <= from
    requires TerminationCalls(log, w.tree.leader, 0, from, w.now)
    requires w.tree.Contained() && (Killed(log) || w.tree.GroupEmpty())
    ensures RunningVerdict(p, r, FailedWait(r.spawnErrno) + log, started, w)
  {
    hide TerminationCalls, Killed;
    WiderSpan(log, w.tree.leader, 0, started, from, w.now, w.now);
    assert (FailedWait(r.spawnErrno) + log)[1..] == log;
  }

  /** Time is up: terminate with grace. */
  method StopAtTimeout(k: Kernel, p: PreparedProcess, started: nat)
    returns (result: NativeRunResult, status: int, statusValid: bool, ghost log: seq<Call>)
    requires Inv(k.w) && Born(k.w) && k.w.grouped && started <= k.w.now && Milliseconds(started, k.w.now) >= p.timeoutMs
    requires StatusKnown(k.w, 0, false)
    modifies k
    ensures Inv(k.w) && Later(old(k.w), k.w) && OnlyWaited(old(k.w), log, k.w) && old(k.w).now <= k.w.now
    ensures StatusKnown(k.w, status, statusValid) && (statusValid || exists c :: c in log && c.WaitFailure?)
    ensures result == FRESH_RESULT.(timedOut := true, stage := SpawnStage.TimeoutKill, spawnErrno := result.spawnErrno)
    ensures RunningVerdict(p, result, log, started, k.w)
    ensures k.w.naps <= old(k.w).naps + NapsWithin(p.terminateGraceMs)
  {
    assert FRESH_RESULT.spawnErrno == 0;
    hide *;
    result := FRESH_RESULT.(timedOut := true, stage := SpawnStage.TimeoutKill);
    var waitError;
    TimeIsUp(started, k.w.now, p.timeoutMs);
    status, statusValid, waitError, log := TerminateProcessGroup(k, p.terminateGraceMs, 0, false);
    ClockGoesOn(old(k.w), k.w);
    EntryStays(old(k.w), k.w);
    if waitError != 0 && result.spawnErrno == 0 {
      result := result.(spawnErrno := waitError);
    }
    TimeoutVerdict(p, result, log, started, old(k.w).now, k.w);
  }

  lemma TimeoutVerdict(p: PreparedProcess, r: NativeRunResult, log: seq<Call>, started: nat, from: nat, w: World)
    requires r.stage.TimeoutKill? && started + Max(0, p.timeoutMs) * NS_PER_MS <= from
    requires TerminationCalls(log, w.tree.leader, p.terminateGraceMs, from, w.now) && SumsUpWaits(r.spawnErrno, log)
    requires w.tree.Contained() && (Killed(log) || w.tree.GroupEmpty())
    ensures RunningVerdict(p, r, log, started, w)
  {
    hide TerminationCalls, Killed, SumsUpWaits;
    WiderSpan(log, w.tree.leader, p.terminateGraceMs, started + Max(0, p.timeoutMs) * NS_PER_MS, from, w.now, w.now);
  }

  /** Once polling is over: nothing to do when the leader was collected, otherwise terminate. */
  method StopRunning(k: Kernel, p: PreparedProcess, started: nat, waited: int, word: int, errno: int)
    returns (result: NativeRunResult, status: int, statusValid: bool, ghost log: seq<Call>)
    requires Inv(k.w) && Born(k.w) && k.w.grouped && started <= k.w.now && (waited < 0 ==> 1 <= errno <= 4095)
    requires StatusKnown(k.w, if waited > 0 then word else 0, waited > 0)
    requires waited == 0 ==> Milliseconds(started, k.w.now) >= p.timeoutMs
    modifies k
    ensures Inv(k.w) && Later(old(k.w), k.w) && OnlyWaited(old(k.w), log, k.w) && old(k.w).now <= k.w.now
    ensures StatusKnown(k.w, status, statusValid) && result.exitCode == -1 && result.signal == 0
    ensures RunningVerdict(p, result, (if waited < 0 then FailedWait(errno) else []) + log, started, k.w)
    ensures waited > 0 ==> result.stage.Ok?
    ensures waited < 0 ==> result.stage.Waitpid?
    ensures waited == 0 ==> result.stage.TimeoutKill?
    ensures result.timedOut <==> waited == 0
    ensures statusValid || waited < 0 || exists c :: c in log && c.WaitFailure?
    ensures k.w.naps <= old(k.w).naps + NapsWithin(p.terminateGraceMs)
  {
    assert FRESH_RESULT == NativeRunResult(-1, 0, false, 0, SpawnStage.Ok, 0);
    hide *;
    if waited < 0 {
      result, status, statusValid, log := StopAfterFailure(k, p, started, errno);
    } else if waited == 0 {
      result, status, statusValid, log := StopAtTimeout(k, p, started);
      assert [] + log == log;
    } else {
      result, status, statusValid, log := FRESH_RESULT, word, true, [];
      LaterReflexive(k.w);
      NothingLeftToDo(p, k.w, word, started);
      assert [] + log == log;
    }
  }

  lemma TimeIsUp(started: nat, now: nat, timeoutMs: int)
    requires started <= now && Milliseconds(started, now) >= timeoutMs
    ensures started + Max(0, timeoutMs) * NS_PER_MS <= now
  {
  }

  lemma NothingLeftToDo(p: PreparedProcess, w: World, word: int, started: nat)
    requires StatusKnown(w, word, true)
    ensures RunningVerdict(p, FRESH_RESULT, [], started, w) && OnlyWaited(w, [], w) && NapsWithin(p.terminateGraceMs) >= 0
  {
    assert w.calls + [] == w.calls;
  }

  lemma VerdictLasts(p: PreparedProcess, r: NativeRunResult, q: NativeRunResult, log: seq<Call>, started: nat, v: World, w: World)
    requires RunningVerdict(p, r, log, started, v) && v.now <= w.now && (v.tree.fate.Reaped? ==> w.tree.fate.Reaped?) && w.tree.leader == v.tree.leader
    requires v.tree.Contained() ==> w.tree.Contained()
    requires v.tree.GroupEmpty() ==> w.tree.GroupEmpty()
    requires q == r.(exitCode := q.exitCode, signal := q.signal, durationMs := q.durationMs)
    ensures RunningVerdict(p, q, log, started, w)
  {
  }

  method FinishRunning(k: Kernel, p: PreparedProcess, started: nat) returns (result: NativeRunResult, ghost log: seq<Call>)
    requires Inv(k.w) && Born(k.w) && k.w.grouped && !k.w.tree.fate.Reaped? && started <= k.w.now
    requires p.timeoutMs > 0
    modifies k
    ensures Inv(k.w) && Later(old(k.w), k.w) && ReportsFate(result, k.w.tree.fate)
    ensures k.w.calls == old(k.w).calls + log && k.w.fds == old(k.w).fds
    ensures RunningVerdict(p, result, log, started, k.w)
    ensures result.timedOut <==> result.stage.TimeoutKill?
    ensures result.timedOut ==> result.durationMs >= p.timeoutMs
    ensures k.w.tree.fate.Reaped? || exists c :: c in log && c.WaitFailure?
    ensures result.durationMs == Milliseconds(started, k.w.now)
    ensures k.w.naps <= old(k.w).naps + NapsWithin(p.timeoutMs) + NapsWithin(p.terminateGraceMs)
  {
    hide Inv, Later, RunningVerdict, NapsWithin, ReportsFate;
    var waited, word, errno := PollLeader(k, started, p.timeoutMs);
    log := if waited < 0 then FailedWait(errno) else [];
    ghost var polled := k.w;
    ClockGoesOn(old(k.w), polled);
    ghost var more;
    var status, statusValid;
    result, status, statusValid, more := StopRunning(k, p, started, waited, word, errno);
    LaterTransitive(old(k.w), polled, k.w);
    assert waited < 0 ==> (log + more)[0].WaitFailure?;
    log := log + more;
    ghost var stopped, r := k.w, result;
    result := Conclude(k, result, status, statusValid, started);
    LaterTransitive(old(k.w), stopped, k.w);
    EntryStays(stopped, k.w);
    VerdictLasts(p, r, result, log, started, stopped, k.w);
  }

  lemma WiderSpan(log: seq<Call>, leader: Pid, graceMs: int, earlier: nat, from: nat, to: nat, later: nat)
    requires TerminationCalls(log, leader, graceMs, from, to) && earlier <= from && to <= later
    ensures TerminationCalls(log, leader, graceMs, earlier, later)
  {
  }

  // ---- run_process ---------------------------------------------------------------------------

  /** What the forked child is to do with the process it was given. */
  function JobOf(p: PreparedProcess): Job {
    Job(p.executable, p.argv, p.envp, p.workingDirectory, p.limits)
  }

  /** The calls of a start that went through. */
  function StartCalls(p: PreparedProcess): seq<Call> {
    [OpenCall(p.stdoutPath, OutFile, Success), OpenCall(p.stderrPath, ErrFile, Success), PipeCall(Success), ForkCall(Success)]
  }

  /** The stage and the error of a start that failed, from the answers the kernel gave. */
  predicate StartVerdict(p: PreparedProcess, r: NativeRunResult, calls: seq<Call>) {
    && 1 <= r.spawnErrno <= 4095
    && StartFailure(p, r.stage, r.spawnErrno, calls)
  }

  predicate StartFailure(p: PreparedProcess, stage: SpawnStage, errno: Errno, calls: seq<Call>) {
    match stage
    case InvalidArgument => !Acceptable(p) && errno == EINVAL && calls == []
    case OpenStdout => calls == [OpenCall(p.stdoutPath, OutFile, Failed(errno))]
    case OpenStderr => calls == [OpenCall(p.stdoutPath, OutFile, Success), OpenCall(p.stderrPath, ErrFile, Failed(errno))]
    case ErrorPipe => calls == StartCalls(p)[..2] + [PipeCall(Failed(errno))]
    case Fork => calls == StartCalls(p)[..3] + [ForkCall(Failed(errno))]
    case _ => false
  }

  /** The failure report arrived whole: the stage is the leader's failed step, the error is that
      step's. Nothing else was called but, possibly, a wait that failed. */
  predicate ReportVerdict(r: NativeRunResult, log: seq<Call>, w: World) {
    && w.child.program.Reporting? && w.child.program.sent == RECORD_SIZE
    && r.stage == StageOf(w.child.program.pc) && r.spawnErrno == w.child.program.error
    && (if w.tree.fate.Reaped? then log == [] else |log| == 1 && log[0].WaitFailure?)
  }

  /** No answer came out of the error pipe: a truncated record, or read itself failed. */
  predicate PipeVerdict(r: NativeRunResult, log: seq<Call>, w: World) {
    && r.stage.ErrorPipe? && Killed(log) && Accounted(log, w.tree.leader) && w.tree.Contained()
    && ((r.spawnErrno == EPROTO && 0 < |w.child.written| < RECORD_SIZE && w.tree.Ending().Some? && log != [] && log[0].SignalCall?)
        || (log != [] && log[0].ReadFailure? && log[0].error == r.spawnErrno))
  }

  /** The whole verdict of a run that got as far as forking. `log`: the calls made since. */
  predicate ForkedVerdict(p: PreparedProcess, r: NativeRunResult, log: seq<Call>, started: nat, w: World) {
    || ReportVerdict(r, log, w)
    || PipeVerdict(r, log, w)
    || (RunningVerdict(p, r, log, started, w)
        && (w.child.program.Image? || (w.child.written == [] && w.tree.Ending().Some?)))
  }

  /** What reading the error pipe to its end established, in the world `read`. */
  ghost predicate ReadingDone(state: ErrorPipeRead, failure: ChildFailure, pipeError: int, log: seq<Call>, read: World) {
    && Inv(read) && Born(read)
    && match state
       case ChildFailed =>
         && log == [] && read.child.program.Reporting? && read.child.program.sent == RECORD_SIZE
         && failure == ChildFailure(StageNumber(StageOf(read.child.program.pc)), read.child.program.error)
       case ExecSucceeded =>
         && log == [] && read.child.written == [] && (read.child.program.Image? || read.tree.Ending().Some?)
       case ReadFailed =>
         || (log == [] && pipeError == EPROTO && 0 < |read.child.written| < RECORD_SIZE && read.tree.Ending().Some?)
         || (1 <= pipeError <= 4095 && log == [ReadFailure(pipeError)])
  }

  /** The three ways out. */
  method Leave(k: Kernel, process: PreparedProcess, started: nat, state: ErrorPipeRead, failure: ChildFailure,
               pipeError: int, ghost read: World, ghost log: seq<Call>)
    returns (result: NativeRunResult, ghost more: seq<Call>)
    requires Inv(k.w) && Born(k.w) && k.w.grouped && !k.w.tree.fate.Reaped? && started <= k.w.now && process.timeoutMs > 0
    requires ReadingDone(state, failure, pipeError, log, read) && Later(read, k.w)
    modifies k
    ensures Inv(k.w) && Later(old(k.w), k.w)
    ensures k.w.fds == old(k.w).fds && k.w.calls == old(k.w).calls + more
    ensures ForkedVerdict(process, result, log + more, started, k.w)
    ensures ReportsFate(result, k.w.tree.fate)
    ensures k.w.tree.fate.Reaped? || exists c :: c in more && c.WaitFailure?
    ensures result.timedOut <==> result.stage.TimeoutKill?
    ensures result.durationMs == Milliseconds(started, k.w.now) && (result.timedOut ==> result.durationMs >= process.timeoutMs)
    ensures k.w.naps <= old(k.w).naps + NapsWithin(process.timeoutMs) + NapsWithin(process.terminateGraceMs)
  {
    hide Inv, Later, RunningVerdict, NapsWithin, ReportsFate, Killed, SameOwn, Milliseconds, Accounted;
    ghost var entered := k.w;
    match state
    case ChildFailed =>
      result, more := FinishReported(k, started, failure);
      LaterTransitive(read, entered, k.w);
      ReportStays(read, k.w);
      assert [] + more == more;
      assert !k.w.tree.fate.Reaped? ==> more[0] in more;
    case ReadFailed =>
      result, more := FinishUnreadable(k, started, pipeError);
      LaterTransitive(read, entered, k.w);
      EndedStays(read, k.w);
      KilledEarlier(log, more);
      EntryStays(entered, k.w);
      QuietIsAccounted(log, k.w.tree.leader);
      AccountedConcat(log, more, k.w.tree.leader);
    case ExecSucceeded =>
      result, more := FinishRunning(k, process, started);
      LaterTransitive(read, entered, k.w);
      EndedStays(read, k.w);
      ImageStays(read, k.w);
      assert [] + more == more;
  }

  /** The supervisor's part once the leader is forked: drop the child's ends, group it, read the error
      pipe to its end, and leave by one of the three ways out. */
  method Supervise(k: Kernel, process: PreparedProcess, started: nat, rd: Fd, wr: Fd, out: Fd, err: Fd)
    returns (result: NativeRunResult, ghost log: seq<Call>)
    requires Inv(k.w) && Born(k.w) && !k.w.grouped && k.w.taken == 0 && !k.w.tree.fate.Reaped?
    requires started <= k.w.now && process.timeoutMs > 0
    requires k.w.fds == Wired(k.w.child.entry) && WiringOf(k.w.child.entry) == Wiring(out, err, rd, wr)
    modifies k
    ensures Inv(k.w) && Later(old(k.w), k.w) && Born(k.w) && k.w.grouped
    ensures k.w.fds == old(k.w).child.entry
    ensures k.w.child.entry == old(k.w).child.entry && k.w.child.job == old(k.w).child.job
    ensures k.w.calls == old(k.w).calls + log && ForkedVerdict(process, result, log, started, k.w)
    ensures ReportsFate(result, k.w.tree.fate)
    ensures k.w.tree.fate.Reaped? || exists c :: c in log && c.WaitFailure?
    ensures result.timedOut <==> result.stage.TimeoutKill?
    ensures result.durationMs == Milliseconds(started, k.w.now) && (result.timedOut ==> result.durationMs >= process.timeoutMs)
    ensures k.w.naps <= old(k.w).naps + NapsWithin(process.timeoutMs) + NapsWithin(process.terminateGraceMs)
  {
    hide Inv, Later, ForkedVerdict, ReadingDone, NapsWithin, ReportsFate, Wired, WiringOf, Milliseconds;
    ghost var read, more;
    var state, failure, pipeError;
    state, failure, pipeError, log, read := ReadAndClose(k, rd, wr, out, err);
    ghost var closed := k.w;
    result, more := Leave(k, process, started, state, failure, pipeError, read, log);
    LaterTransitive(old(k.w), closed, k.w);
    EntryStays(old(k.w), k.w);
    EntryStays(closed, k.w);
    log := log + more;
  }

  lemma KilledEarlier(log: seq<Call>, more: seq<Call>)
    requires Killed(more)
    ensures Killed(log + more)
  {
    var c :| c in more && c.SignalCall? && c.sig == SIGKILL;
    assert c in log + more;
  }

  lemma ReportStays(a: World, b: World)
    requires Later(a, b) && Inv(a) && Inv(b) && Born(a)
    ensures a.child.program.Reporting? && a.child.program.sent == RECORD_SIZE ==> b.child.program == a.child.program
  {
  }

  lemma EndedStays(a: World, b: World)
    requires Later(a, b) && Born(a)
    ensures a.tree.Ending().Some? ==> b.child == a.child && b.tree.Ending() == a.tree.Ending()
  {
  }

  lemma EntryStays(a: World, b: World)
    requires Later(a, b) && Born(a)
    ensures b.child.entry == a.child.entry && b.child.job == a.child.job && b.tree.leader == a.tree.leader
    ensures Born(b) && (a.grouped ==> b.grouped)
  {
  }

  lemma ImageStays(a: World, b: World)
    requires Later(a, b) && Born(a)
    ensures a.child.program.Image? ==> b.child.program.Image?
  {
  }

  /** Closes the descriptors that are the child's business, and makes the supervisor's setpgid call. */
  method DropChildEnds(k: Kernel, ghost rd: Fd, wr: Fd, out: Fd, err: Fd)
    requires Inv(k.w) && Born(k.w) && !k.w.grouped
    requires k.w.fds == Wired(k.w.child.entry) && WiringOf(k.w.child.entry) == Wiring(out, err, rd, wr)
    modifies k
    ensures Inv(k.w) && Later(old(k.w), k.w) && Close(k.w.fds, rd) == old(k.w).child.entry && !Holds(k.w.fds, PipeWrite)
    ensures rd in k.w.fds
    ensures SameOwn(old(k.w).(fds := k.w.fds, grouped := true), k.w)
  {
    hide Inv, Later;
    ghost var entry := k.w.child.entry;
    ClosingLeavesReadEnd(entry, k.w);
    ClosesWhatIsOpen(entry);
    hide Wired, WiringOf;
    k.Close(wr);
    ghost var w1 := k.w;
    k.Close(out);
    LaterTransitive(old(k.w), w1, k.w);
    ghost var w2 := k.w;
    k.Close(err);
    LaterTransitive(old(k.w), w2, k.w);
    ghost var w3 := k.w;
    k.SetProcessGroup();
    LaterTransitive(old(k.w), w3, k.w);
  }

  lemma ClosingLeavesReadEnd(entry: Table, w: World)
    requires Inv(w) && Born(w) && w.child.entry == entry
    ensures var n := WiringOf(entry);
            var t := Close(Close(Close(Wired(entry), n.wr), n.out), n.err);
            && Close(t, n.rd) == entry && !Holds(t, PipeWrite)
  {
    ClosingRestores(entry);
    WiringAscends(entry);
  }

  /** From the fork to the classified end of the error pipe. */
  method ReadAndClose(k: Kernel, rd: Fd, wr: Fd, out: Fd, err: Fd)
    returns (state: ErrorPipeRead, failure: ChildFailure, pipeError: int, ghost log: seq<Call>, ghost read: World)
    requires Inv(k.w) && Born(k.w) && !k.w.grouped && k.w.taken == 0 && !k.w.tree.fate.Reaped?
    requires k.w.fds == Wired(k.w.child.entry) && WiringOf(k.w.child.entry) == Wiring(out, err, rd, wr)
    modifies k
    ensures Inv(k.w) && Later(old(k.w), k.w) && k.w.grouped && Born(k.w)
    ensures ReadingDone(state, failure, pipeError, log, read) && Later(read, k.w)
    ensures k.w.fds == old(k.w).child.entry && k.w.naps == old(k.w).naps && k.w.calls == old(k.w).calls + log
    ensures !k.w.tree.fate.Reaped? && old(k.w).now <= k.w.now
  {
    hide Inv, Later;
    DropChildEnds(k, rd, wr, out, err);
    ghost var w4 := k.w;
    state, failure, pipeError := ReadChildFailure(k);
    LaterTransitive(old(k.w), w4, k.w);
    read := k.w;
    log := if state.ReadFailed? && k.w.calls != w4.calls then [ReadFailure(pipeError)] else [];
    k.Close(rd);
    LaterTransitive(old(k.w), read, k.w);
    ClockGoesOn(old(k.w), k.w);
  }

  /** Opens the two output files; on a failure it takes back what it opened. */
  method OpenOutputs(k: Kernel, process: PreparedProcess)
    returns (stage: SpawnStage, errno: int, out: int, err: int)
    requires Inv(k.w) && !Born(k.w) && k.w.calls == []
    modifies k`w
    ensures Inv(k.w) && !Born(k.w) && OnlyOpened(old(k.w), k.w)
    ensures stage.Ok? || (1 <= errno <= 4095 && StartFailure(process, stage, errno, k.w.calls) && k.w.fds == old(k.w).fds)
    ensures stage.Ok? || stage.OpenStdout? || stage.OpenStderr?
    ensures stage.Ok? ==> out >= 0 && err >= 0 && WiringOf(old(k.w).fds).out == out && WiringOf(old(k.w).fds).err == err
    ensures stage.Ok? ==> k.w.fds == Allocate(Allocate(old(k.w).fds, OutFile), ErrFile) && k.w.calls == StartCalls(process)[..2]
  {
    ClosingRestores(k.w.fds);
    ClosesWhatIsOpen(k.w.fds);
    hide Inv, Later, LowestFree, Close, Allocate, SameOwn;
    stage, err := SpawnStage.Ok, -1;
    out, errno := k.Open(process.stdoutPath, OutFile);
    if out < 0 {
      stage := SpawnStage.OpenStdout;
    } else {
      err, errno := k.Open(process.stderrPath, ErrFile);
      if err < 0 {
        stage := SpawnStage.OpenStderr;
        k.Close(out);
      }
    }
  }

  /** Opens the error pipe; on a failure it closes the output files. `entry`: the table before those. */
  method OpenPipe(k: Kernel, process: PreparedProcess, out: Fd, err: Fd, ghost entry: Table)
    returns (stage: SpawnStage, errno: int, rd: int, wr: int)
    requires Inv(k.w) && !Born(k.w) && k.w.fds == Allocate(Allocate(entry, OutFile), ErrFile)
    requires WiringOf(entry).out == out && WiringOf(entry).err == err && k.w.calls == StartCalls(process)[..2]
    modifies k`w
    ensures Inv(k.w) && !Born(k.w) && OnlyOpened(old(k.w), k.w)
    ensures stage.Ok? || (stage.ErrorPipe? && 1 <= errno <= 4095 && StartFailure(process, stage, errno, k.w.calls) && k.w.fds == entry)
    ensures stage.Ok? ==> rd >= 0 && wr >= 0 && WiringOf(entry) == Wiring(out, err, rd, wr)
    ensures stage.Ok? ==> k.w.fds == Wired(entry) && k.w.calls == StartCalls(process)[..3]
  {
    ClosingRestores(entry);
    ClosesWhatIsOpen(entry);
    hide Inv, Later, LowestFree, Close, Allocate, SameOwn;
    stage := SpawnStage.Ok;
    rd, wr, errno := k.Pipe();
    if rd < 0 {
      stage := SpawnStage.ErrorPipe;
      k.Close(out);
      k.Close(err);
    }
  }

  /** Opens the two output files and the error pipe, or says which of them failed. */
  method OpenWires(k: Kernel, process: PreparedProcess, start: nat)
    returns (failed: bool, result: NativeRunResult, rd: int, wr: int, out: int, err: int)
    requires Inv(k.w) && !Born(k.w) && Pristine(k.w.fds) && k.w.calls == [] && start <= k.w.now
    modifies k`w
    ensures Inv(k.w) && !Born(k.w) && OnlyOpened(old(k.w), k.w)
    ensures failed ==> k.w.fds == old(k.w).fds && StartVerdict(process, result, k.w.calls)
    ensures failed ==> result == FRESH_RESULT.(stage := result.stage, spawnErrno := result.spawnErrno, durationMs := result.durationMs)
    ensures failed ==> !result.stage.InvalidArgument? && !result.stage.TimeoutKill? && result.durationMs == Milliseconds(start, k.w.now)
    ensures !failed ==> rd >= 0 && wr >= 0 && out >= 0 && err >= 0 && WiringOf(old(k.w).fds) == Wiring(out, err, rd, wr)
    ensures !failed ==> k.w.fds == Wired(old(k.w).fds) && k.w.calls == StartCalls(process)[..3]
  {
    hide Inv, Later, Allocate, LowestFree, WiringOf, Wired, SameOwn, Milliseconds, StartFailure, Pristine;
    rd, wr, result := -1, -1, FRESH_RESULT;
    var stage, errno;
    stage, errno, out, err := OpenOutputs(k, process);
    if stage.Ok? {
      stage, errno, rd, wr := OpenPipe(k, process, out, err, old(k.w).fds);
    }
    failed := !stage.Ok?;
    if failed {
      result := Refuse(k, start, stage, errno);
    }
  }

  /** Forks, and supervises what it forked. */
  method ForkAndSupervise(k: Kernel, process: PreparedProcess, start: nat, rd: Fd, wr: Fd, out: Fd, err: Fd)
    returns (result: NativeRunResult, ghost log: seq<Call>)
    requires Inv(k.w) && !Born(k.w) && Pristine(k.w.child.entry) && process.timeoutMs > 0 && start <= k.w.now
    requires k.w.fds == Wired(k.w.child.entry) && WiringOf(k.w.child.entry) == Wiring(out, err, rd, wr)
    requires k.w.calls == StartCalls(process)[..3]
    modifies k
    ensures Inv(k.w) && k.w.fds == old(k.w).child.entry && start <= k.w.now
    ensures !Born(k.w) ==> StartVerdict(process, result, k.w.calls) && result.stage.Fork?
    ensures Born(k.w) ==>
              && k.w.grouped && k.w.child.entry == old(k.w).child.entry
              && k.w.child.job == JobOf(process)
              && k.w.calls == StartCalls(process) + log
              && ForkedVerdict(process, result, log, start, k.w)
              && (k.w.tree.fate.Reaped? || exists c :: c in log && c.WaitFailure?)
    ensures ReportsFate(result, k.w.tree.fate)
    ensures result.timedOut <==> result.stage.TimeoutKill?
    ensures result.durationMs == Milliseconds(start, k.w.now) && (result.timedOut ==> result.durationMs >= process.timeoutMs)
    ensures k.w.naps <= old(k.w).naps + NapsWithin(process.timeoutMs) + NapsWithin(process.terminateGraceMs)
  {
    hide Inv, Later, NapsWithin, ForkedVerdict, Milliseconds;
    log := [];
    NothingForked(k.w);
    ClosingRestores(k.w.child.entry);
    ClosesWhatIsOpen(k.w.child.entry);
    hide Wired, WiringOf, Pristine;
    var pid, errno := k.Fork(JobOf(process));
    if pid < 0 {
      CloseFour(k, rd, wr, out, err);
      result := Refuse(k, start, SpawnStage.Fork, errno);
    } else {
      ghost var forked := k.w;
      result, log := Supervise(k, process, start, rd, wr, out, err);
      ClockGoesOn(forked, k.w);
    }
  }

  /** Everything a returned result means, given the world it was returned in. `log`: the calls made
      since the fork; `started`: when the run started. */
  ghost predicate Outcome(p: PreparedProcess, w: World, r: NativeRunResult, started: nat, log: seq<Call>) {
    && Inv(w)
    && (r.stage.InvalidArgument? <==> !Acceptable(p))
    && (if Born(w) then
          && w.grouped && w.child.job == JobOf(p) && w.calls == StartCalls(p) + log
          && ForkedVerdict(p, r, log, started, w)
          && (w.tree.fate.Reaped? || exists c :: c in log && c.WaitFailure?)
        else
          StartVerdict(p, r, w.calls))
    && ReportsFate(r, w.tree.fate)
    && (r.timedOut <==> r.stage.TimeoutKill?)
    && r.durationMs == Milliseconds(started, w.now)
    && (r.timedOut ==> r.durationMs >= p.timeoutMs)
  }

  /** run_process. On every way out, under every schedule of everything else: the descriptors are
      those of the entry, the stage and the error are what the kernel's answers and the leader's
      fate call for, the status fields say how the leader ended if and only if it was reaped, and the
      sleeps are bounded. */
  method RunProcess(k: Kernel, process: PreparedProcess)
    returns (result: NativeRunResult, ghost started: nat, ghost log: seq<Call>)
    requires Inv(k.w) && !Born(k.w) && Pristine(k.w.fds) && k.w.fds == k.w.child.entry
    requires k.w.calls == [] && k.w.naps == 0
    modifies k
    ensures Outcome(process, k.w, result, started, log)
    ensures k.w.fds == old(k.w).fds && old(k.w).now <= started <= k.w.now
    ensures Born(k.w) ==> k.w.child.entry == old(k.w).fds
    ensures k.w.naps <= NapsWithin(process.timeoutMs) + NapsWithin(process.terminateGraceMs)
  {
    hide Inv, Later, NapsWithin, ForkedVerdict, Wired, WiringOf, Pristine, Milliseconds;
    log := [];
    NothingForked(k.w);
    var start := k.Now();
    started := start;
    ClockGoesOn(old(k.w), k.w);
    UnbornOnlyOpened(old(k.w), k.w);
    hide SameOwn;

    if !IsAbsolutePath(process.executable) || process.argv == [] || process.argv[0] != process.executable
       || !IsAbsolutePath(process.workingDirectory) || !IsAbsolutePath(process.stdoutPath)
       || !IsAbsolutePath(process.stderrPath) || process.timeoutMs <= 0 || process.terminateGraceMs < 0 {
      result := Refuse(k, start, SpawnStage.InvalidArgument, EINVAL);
      return;
    }

    var failed, rd, wr, out, err;
    failed, result, rd, wr, out, err := OpenWires(k, process, start);
    if !failed {
      result, log := ForkAndSupervise(k, process, start, rd, wr, out, err);
      if Born(k.w) {
        ForkedStages(process, result, log, start, k.w);
      }
    }
  }

  lemma ForkedStages(p: PreparedProcess, r: NativeRunResult, log: seq<Call>, started: nat, w: World)
    requires ForkedVerdict(p, r, log, started, w)
    ensures !r.stage.InvalidArgument? && !r.stage.OpenStdout? && !r.stage.OpenStderr? && !r.stage.Fork?
  {
  }

  method CloseFour(k: Kernel, rd: Fd, wr: Fd, out: Fd, err: Fd)
    requires Inv(k.w) && !Born(k.w)
    requires rd in k.w.fds && wr in Close(k.w.fds, rd) && out in Close(Close(k.w.fds, rd), wr)
    requires err in Close(Close(Close(k.w.fds, rd), wr), out)
    modifies k`w
    ensures Inv(k.w)
    ensures OnlyOpened(old(k.w), k.w) && k.w.calls == old(k.w).calls
    ensures k.w.fds == Close(Close(Close(Close(old(k.w).fds, rd), wr), out), err)
  {
    hide Inv, Later;
    k.Close(rd);
    k.Close(wr);
    k.Close(out);
    k.Close(err);
  }

  /** A way out before the fork. */
  method Refuse(k: Kernel, started: nat, stage: SpawnStage, errno: int) returns (result: NativeRunResult)
    requires Inv(k.w) && !Born(k.w) && started <= k.w.now
    modifies k`w
    ensures Inv(k.w) && OnlyOpened(old(k.w), k.w) && k.w.fds == old(k.w).fds && k.w.calls == old(k.w).calls
    ensures result == FRESH_RESULT.(stage := stage, spawnErrno := errno, durationMs := result.durationMs)
    ensures result.durationMs == Milliseconds(started, k.w.now)
  {
    hide Inv, Later;
    result := FRESH_RESULT.(stage := stage, spawnErrno := errno);
    var elapsed := ElapsedMs(k, started);
    UnbornOnlyOpened(old(k.w), k.w);
    ClockGoesOn(old(k.w), k.w);
    result := result.(durationMs := elapsed);
  }

  lemma NothingForked(w: World)
    requires Inv(w) && !Born(w)
    ensures w.tree.fate.Uncollected? && w.taken == 0 && !w.grouped
  {
  }
}
