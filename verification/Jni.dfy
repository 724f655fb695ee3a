/** The boundary above the supervisor: seven 64-bit fields packed in C++, unpacked in Kotlin into a
    record whose own notion of success must agree with the native one. */
module Jni {
  import opened Posix
  import opened Wrappers
  import opened Strings
  import opened ProcessTree
  import D = Descriptors
  import L = LeaderProgram
  import W = World
  import K = Kernel
  import opened Supervisor
  import T = Theorems

  const ABI_VERSION: int := 1
  const RESULT_FIELD_COUNT: nat := 7

  // ---- the native side -----------------------------------------------------------------------

  function PackResult(r: NativeRunResult): (fields: seq<int>)
    ensures |fields| == RESULT_FIELD_COUNT
  {
    [ABI_VERSION, r.exitCode, r.signal, if r.timedOut then 1 else 0, r.durationMs, r.spawnErrno, StageNumber(r.stage)]
  }

  // ---- the Kotlin side -----------------------------------------------------------------------

  /** Long.toInt keeps the low 32 bits, read as two's complement. */
  function ToInt(x: int): int {
    (x + 0x8000_0000) % 0x1_0000_0000 - 0x8000_0000
  }

  predicate IsInt(x: int) {
    -0x8000_0000 <= x < 0x8000_0000
  }

  /** The Kotlin enumeration's entries with their wire numbers, in declaration order. */
  const ENTRIES: seq<(SpawnStage, int)> := [
    (Ok, 0), (InvalidArgument, 1), (OpenStdout, 2), (OpenStderr, 3), (ErrorPipe, 4), (Fork, 5),
    (Setpgid, 6), (ResourceLimit, 7), (Chdir, 8), (Dup2Stdout, 9), (Dup2Stderr, 10), (Execve, 11),
    (Waitpid, 12), (TimeoutKill, 13)]

  function FirstWithWire(value: int, from: nat): (stage: Option<SpawnStage>)
    requires from <= |ENTRIES|
    ensures stage.Some? ==> exists i :: from <= i < |ENTRIES| && ENTRIES[i] == (stage.value, value)
    ensures stage.None? ==> forall i :: from <= i < |ENTRIES| ==> ENTRIES[i].1 != value
    decreases |ENTRIES| - from
  {
    if from == |ENTRIES| then None
    else if ENTRIES[from].1 == value then Some(ENTRIES[from].0)
    else FirstWithWire(value, from + 1)
  }

  function FromWire(value: int): Option<SpawnStage> {
    FirstWithWire(value, 0)
  }

  datatype KotlinRunResult = KotlinRunResult(
    exitCode: Option<int>, signal: Option<int>, timedOut: bool, durationMs: int, spawnErrno: int, stage: SpawnStage)
  {
    predicate Succeeded() {
      stage.Ok? && !timedOut && spawnErrno == 0 && signal.None? && exitCode == Some(0)
    }
  }

  datatype Unpacked = Unpacked(result: KotlinRunResult) | SizeMismatch | AbiMismatch | UnknownStage(value: int)

  function Unpack(raw: seq<int>): Unpacked {
    if |raw| != RESULT_FIELD_COUNT then SizeMismatch
    else if raw[0] != ABI_VERSION then AbiMismatch
    else
      var exit, signal, stage := ToInt(raw[1]), ToInt(raw[2]), FromWire(ToInt(raw[6]));
      if stage.None? then UnknownStage(ToInt(raw[6]))
      else Unpacked(KotlinRunResult(
        if exit >= 0 then Some(exit) else None,
        if signal > 0 then Some(signal) else None,
        raw[3] != 0, raw[4], ToInt(raw[5]), stage.value))
  }

  /** The native record a Kotlin record stands for. */
  function Repacked(k: KotlinRunResult): NativeRunResult {
    NativeRunResult(if k.exitCode.Some? then k.exitCode.value else -1,
                    if k.signal.Some? then k.signal.value else 0,
                    k.timedOut, k.spawnErrno, k.stage, k.durationMs)
  }

  // ---- agreement -----------------------------------------------------------------------------

  lemma ToIntKeepsInts(x: int)
    requires IsInt(x)
    ensures ToInt(x) == x
  {
  }

  lemma FromWireInverts(stage: SpawnStage)
    ensures FromWire(StageNumber(stage)) == Some(stage)
  {
    var n := StageNumber(stage);
    assert ENTRIES[n] == (stage, n);
    assert forall i :: 0 <= i < |ENTRIES| ==> ENTRIES[i].1 == i;
  }

  /** The wire numbers are exactly 0 to 13; Kotlin raises on every other value. */
  lemma FromWireDefinedExactly(value: int)
    ensures FromWire(value).Some? <==> 0 <= value <= 13
    ensures 0 <= value <= 13 ==> FromWire(value) == Some(STAGES[value])
  {
    if 0 <= value <= 13 {
      assert StageNumber(STAGES[value]) == value;
      FromWireInverts(STAGES[value]);
    } else {
      assert forall i :: 0 <= i < |ENTRIES| ==> ENTRIES[i].1 == i;
    }
  }

  /** Kotlin takes seven numbers, the first of which is 1 and the last of which is a known stage in its low
      32 bits, and raises on everything else, naming the first thing that is wrong. */
  lemma UnpackExactly(raw: seq<int>)
    ensures Unpack(raw).SizeMismatch? <==> |raw| != 7
    ensures |raw| == 7 ==>
              && (Unpack(raw).AbiMismatch? <==> raw[0] != 1)
              && (Unpack(raw).UnknownStage? <==> raw[0] == 1 && !(0 <= ToInt(raw[6]) <= 13))
              && (Unpack(raw).Unpacked? ==>
                    && StageNumber(Unpack(raw).result.stage) == ToInt(raw[6])
                    && (Unpack(raw).result.timedOut <==> raw[3] != 0) && Unpack(raw).result.durationMs == raw[4])
  {
    if |raw| == 7 {
      FromWireDefinedExactly(ToInt(raw[6]));
      hide FromWire, ToInt;
    }
  }

  predicate CInts(r: NativeRunResult) {
    IsInt(r.exitCode) && IsInt(r.signal) && IsInt(r.spawnErrno)
  }

  /** What Kotlin makes of a packed record. */
  lemma UnpackedFields(r: NativeRunResult)
    requires CInts(r)
    ensures Unpack(PackResult(r)) == Unpacked(KotlinRunResult(
              if r.exitCode >= 0 then Some(r.exitCode) else None, if r.signal > 0 then Some(r.signal) else None,
              r.timedOut, r.durationMs, r.spawnErrno, r.stage))
  {
    hide FromWire, ToInt, StageNumber;
    FromWireInverts(r.stage);
    ToIntKeepsInts(StageNumber(r.stage));
    ToIntKeepsInts(r.exitCode);
    ToIntKeepsInts(r.signal);
    ToIntKeepsInts(r.spawnErrno);
  }

  /** Packing then unpacking never raises, and loses nothing exactly when a missing exit code is -1 and
      a missing signal 0. */
  lemma UnpackLosesNothingExactly(r: NativeRunResult)
    requires CInts(r)
    ensures Unpack(PackResult(r)).Unpacked?
    ensures Repacked(Unpack(PackResult(r)).result) == r <==> r.exitCode >= -1 && r.signal >= 0
  {
    hide Unpack, PackResult;
    UnpackedFields(r);
  }

  /** The two definitions of success agree on a record exactly when it does not carry a negative signal
      beside everything else a success needs. */
  lemma SuccessAgreesExactly(r: NativeRunResult)
    requires CInts(r)
    ensures Unpack(PackResult(r)).Unpacked?
    ensures (Unpack(PackResult(r)).result.Succeeded() <==> r.Succeeded()) <==>
              !(r.signal < 0 && r.stage.Ok? && !r.timedOut && r.spawnErrno == 0 && r.exitCode == 0)
  {
    hide Unpack, PackResult;
    UnpackedFields(r);
  }

  /** Every result the supervisor can return crosses the boundary whole: nothing raises, nothing is
      lost, and both sides call the same results successes. */
  lemma EveryOutcomeCrosses(p: PreparedProcess, w: W.World, r: NativeRunResult, started: nat, log: seq<W.Call>)
    requires Outcome(p, w, r, started, log)
    ensures var u := Unpack(PackResult(r));
            u.Unpacked? && Repacked(u.result) == r && (u.result.Succeeded() <==> r.Succeeded())
  {
    OutcomeIsInRange(p, w, r, started, log);
    UnpackLosesNothingExactly(r);
    SuccessAgreesExactly(r);
  }

  lemma OutcomeIsInRange(p: PreparedProcess, w: W.World, r: NativeRunResult, started: nat, log: seq<W.Call>)
    requires Outcome(p, w, r, started, log)
    ensures -1 <= r.exitCode <= 255 && 0 <= r.signal <= 64 && 0 <= r.spawnErrno <= 4095
    ensures r.exitCode == -1 || r.signal == 0
    ensures r.exitCode >= 0 || r.signal > 0 <==> w.tree.fate.Reaped?
  {
    if w.tree.fate.Reaped? {
      assert w.tree.Ending() == Some(w.tree.fate.status);
    }
    if W.Born(w) && !ReportVerdict(r, log, w) && !PipeVerdict(r, log, w) {
      assert RunningVerdict(p, r, log, started, w);
    }
  }

  // ---- what Kotlin may pass down -------------------------------------------------------------

  datatype PreparedLaunch = PreparedLaunch(
    executable: string, arguments: seq<string>, environment: seq<(string, string)>, workingDirectory: string,
    stdoutPath: string, stderrPath: string, timeoutMs: int, terminateGraceMs: int,
    cpuSeconds: int, maxOpenFiles: int, maxFileBytes: int, maxAddressSpaceBytes: int)
  {
    /** What the init blocks of PreparedLaunch and NativeResourceLimits demand of these fields. */
    predicate Constructible() {
      && StartsWithSlash(executable) && StartsWithSlash(workingDirectory)
      && StartsWithSlash(stdoutPath) && StartsWithSlash(stderrPath)
      && timeoutMs > 0 && terminateGraceMs >= 0
      && cpuSeconds >= 0 && maxOpenFiles >= 0 && maxFileBytes >= 0 && maxAddressSpaceBytes >= 0
    }
  }

  predicate StartsWithSlash(s: string) {
    ['/'] <= s
  }

  function EnvStrings(environment: seq<(string, string)>): seq<string> {
    seq(|environment|, i requires 0 <= i < |environment| => environment[i].0 + "=" + environment[i].1)
  }

  datatype Crossing = Crossing(process: PreparedProcess) | IllegalArgument(message: string)

  /** nativeRun up to the call of run_process: the scalar checks, then the native record. */
  function NativeArguments(l: PreparedLaunch): Crossing {
    if l.timeoutMs <= 0 then IllegalArgument("timeoutMs must be greater than zero")
    else if l.terminateGraceMs < 0 then IllegalArgument("terminateGraceMs must not be negative")
    else if l.cpuSeconds < 0 || l.maxOpenFiles < 0 || l.maxFileBytes < 0 || l.maxAddressSpaceBytes < 0 then
      IllegalArgument("ETroute resource limits must not be negative")
    else Crossing(PreparedProcess(
      l.executable, [l.executable] + l.arguments, EnvStrings(l.environment), l.workingDirectory,
      l.stdoutPath, l.stderrPath, l.timeoutMs, l.terminateGraceMs,
      L.NativeResourceLimits(l.cpuSeconds, l.maxOpenFiles, l.maxFileBytes, l.maxAddressSpaceBytes)))
  }

  /** Exactly these scalars cross. */
  lemma CrossesExactly(l: PreparedLaunch)
    ensures NativeArguments(l).Crossing? <==>
              && l.timeoutMs >= 1 && l.terminateGraceMs >= 0
              && forall limit :: limit in [l.cpuSeconds, l.maxOpenFiles, l.maxFileBytes, l.maxAddressSpaceBytes] ==> limit >= 0
  {
    var limits := [l.cpuSeconds, l.maxOpenFiles, l.maxFileBytes, l.maxAddressSpaceBytes];
    assert limits[0] in limits && limits[1] in limits && limits[2] in limits && limits[3] in limits;
  }

  /** to_strings: a null element ends it with an exception. */
  method ToStrings(elements: seq<Option<string>>) returns (ok: bool, result: seq<string>)
    ensures ok <==> None !in elements
    ensures |result| <= |elements| && forall i :: 0 <= i < |result| ==> elements[i] == Some(result[i])
    ensures ok ==> |result| == |elements|
    ensures !ok ==> elements[|result|] == None
  {
    ok, result := false, [];
    for i := 0 to |elements|
      invariant |result| == i && forall j :: 0 <= j < i ==> elements[j] == Some(result[j])
    {
      if elements[i].None? {
        return;
      }
      result := result + [elements[i].value];
    }
    ok := true;
  }

  /** No launch Kotlin can construct is refused on its way down or by run_process's own checks. */
  lemma ConstructibleLaunchIsAcceptable(l: PreparedLaunch)
    requires l.Constructible()
    ensures NativeArguments(l).Crossing? && Acceptable(NativeArguments(l).process)
  {
    assert forall s: string :: StartsWithSlash(s) ==> s[0] == '/';
  }

  /** So a result that came from Kotlin never carries stage InvalidArgument. */
  lemma KotlinNeverSeesInvalidArgument(
    l: PreparedLaunch, w: W.World, r: NativeRunResult, started: nat, log: seq<W.Call>)
    requires l.Constructible() && Outcome(NativeArguments(l).process, w, r, started, log)
    ensures Unpack(PackResult(r)).Unpacked? && !Unpack(PackResult(r)).result.stage.InvalidArgument?
  {
    ConstructibleLaunchIsAcceptable(l);
    EveryOutcomeCrosses(NativeArguments(l).process, w, r, started, log);
  }

  /** What a C program reads back from one string of its environment. */
  function EnvEntry(s: string): (string, string) {
    var i := IndexOf(s, '=');
    (s[..i], if i < |s| then s[i + 1..] else "")
  }

  /** The environment survives as long as no key holds an equals sign, whatever the values hold. */
  lemma EnvironmentSurvives(environment: seq<(string, string)>, i: nat)
    requires i < |environment| && '=' !in environment[i].0
    ensures EnvEntry(EnvStrings(environment)[i]) == environment[i]
  {
    var (key, value) := environment[i];
    var s := key + ['='] + value;
    assert EnvStrings(environment)[i] == s;
    IndexAfter(key, '=', value);
    assert s[..|key|] == key && s[|key| + 1..] == value;
  }

  function EnvEntries(envp: seq<string>): seq<(string, string)> {
    seq(|envp|, i requires 0 <= i < |envp| => EnvEntry(envp[i]))
  }

  /** The launch a native record stands for. */
  function LaunchOf(p: PreparedProcess): PreparedLaunch
    requires p.argv != []
  {
    PreparedLaunch(
      p.executable, p.argv[1..], EnvEntries(p.envp), p.workingDirectory, p.stdoutPath, p.stderrPath,
      p.timeoutMs, p.terminateGraceMs,
      p.limits.cpuSeconds, p.limits.maxOpenFiles, p.limits.maxFileBytes, p.limits.maxAddressSpaceBytes)
  }

  /** Nothing of a launch is lost or confused on its way down: it can be read back whole from what
      run_process gets, as long as no key of its environment holds an equals sign. */
  lemma LaunchIsRecovered(l: PreparedLaunch)
    requires l.Constructible() && forall i :: 0 <= i < |l.environment| ==> '=' !in l.environment[i].0
    ensures NativeArguments(l).Crossing? && NativeArguments(l).process.argv != []
    ensures LaunchOf(NativeArguments(l).process) == l
  {
    var p := NativeArguments(l).process;
    hide EnvEntry;
    forall i | 0 <= i < |l.environment| ensures EnvEntries(p.envp)[i] == l.environment[i] {
      EnvironmentSurvives(l.environment, i);
    }
    assert EnvEntries(p.envp) == l.environment;
    assert p.argv[1..] == l.arguments;
  }

  // ---- the whole way down and up -------------------------------------------------------------

  /** How the start went, from its calls in order: the launch's stdout is opened, then its stderr, each as
      the file its descriptor gets, then the pipe, then the fork. The first that fails is the last, and
      the result has its stage and its error. */
  predicate StartsInOrder(launch: PreparedLaunch, calls: seq<W.Call>, r: NativeRunResult) {
    && |calls| >= 1 && calls[0].OpenCall? && calls[0].path == launch.stdoutPath && calls[0].file == D.OutFile
    && (|calls| == 1 <==> calls[0].answer.Failed?)
    && (|calls| == 1 ==> r.stage.OpenStdout? && calls[0].answer.Failed? && calls[0].answer.error == r.spawnErrno)
    && (|calls| >= 2 ==> calls[1].OpenCall? && calls[1].path == launch.stderrPath && calls[1].file == D.ErrFile)
    && (|calls| >= 2 ==> (|calls| == 2 <==> calls[1].answer.Failed?))
    && (|calls| == 2 ==> r.stage.OpenStderr? && calls[1].answer.Failed? && calls[1].answer.error == r.spawnErrno)
    && (|calls| >= 3 ==> calls[2].PipeCall? && (|calls| == 3 <==> calls[2].answer.Failed?))
    && (|calls| == 3 ==> r.stage.ErrorPipe? && calls[2].answer.Failed? && calls[2].answer.error == r.spawnErrno)
    && (|calls| >= 4 ==> calls[3].ForkCall? && (r.stage.Fork? <==> calls[3].answer.Failed?))
    && (|calls| >= 4 && r.stage.Fork? ==> |calls| == 4 && calls[3].answer.Failed? && calls[3].answer.error == r.spawnErrno)
  }

  /** The leader is forked for this launch and nothing else, and that is what its image runs as. */
  predicate ForkedFor(launch: PreparedLaunch, child: L.Child) {
    var job := child.job;
    && (child.program.Image? ==>
          && child.given.image == Some(L.Execution(launch.executable, job.argv, job.envp))
          && child.given.directory == Some(launch.workingDirectory))
    && job.executable == launch.executable && job.workingDirectory == launch.workingDirectory
    && |job.argv| == 1 + |launch.arguments| && job.argv[0] == launch.executable && job.argv[1..] == launch.arguments
    && |job.envp| == |launch.environment|
    && (forall i :: 0 <= i < |job.envp| ==> job.envp[i] == launch.environment[i].0 + "=" + launch.environment[i].1)
    && job.limits.cpuSeconds == launch.cpuSeconds && job.limits.maxOpenFiles == launch.maxOpenFiles
    && job.limits.maxFileBytes == launch.maxFileBytes && job.limits.maxAddressSpaceBytes == launch.maxAddressSpaceBytes
  }

  lemma StartsAsLaunched(
    l: PreparedLaunch, w: W.World, r: NativeRunResult, started: nat, log: seq<W.Call>)
    requires l.Constructible() && NativeArguments(l).Crossing? && Outcome(NativeArguments(l).process, w, r, started, log)
    ensures StartsInOrder(l, w.calls, r)
    ensures W.Born(w) ==> ForkedFor(l, w.child)
  {
    ConstructibleLaunchIsAcceptable(l);
    if W.Born(w) {
      ForkedStages(NativeArguments(l).process, r, log, started, w);
      T.ImageRunsAsAsked(NativeArguments(l).process, w, r, started, log);
    }
    hide ForkedVerdict, W.Inv, ReportsFate, EnvStrings;
    assert EnvStrings(l.environment) == NativeArguments(l).process.envp;
  }

  /** A kill is never sent before the launch's own grace period is over. */
  predicate GivesGrace(log: seq<W.Call>, graceMs: int) {
    forall i :: 0 <= i < |log| && log[i].SignalCall? && log[i].sig == SIGKILL ==>
      log[0].SignalCall? && log[i].at >= log[0].at + graceMs * 1_000_000
  }

  lemma GraceOfLaunch(p: PreparedProcess, w: W.World, r: NativeRunResult, started: nat, log: seq<W.Call>)
    requires Outcome(p, w, r, started, log)
    ensures r.timedOut ==> GivesGrace(log, p.terminateGraceMs)
  {
    if r.timedOut {
      forall i | 0 <= i < |log| && log[i].SignalCall? && log[i].sig == SIGKILL
        ensures log[0].SignalCall? && log[i].at >= log[0].at + p.terminateGraceMs * 1_000_000
      {
        T.GraceIsGiven(p, w, r, started, log, i);
      }
    }
  }

  /** JniNativeSupervisor.run. For every launch Kotlin can construct and every schedule: the supervisor
      accepts it, opens its output files, forks a leader for it and leaves its own descriptors as they
      were; what Kotlin gets is what the supervisor returned, `r`, with all that its outcome says; it
      counts as a success exactly when it carries stage OK and the leader's image exited with 0, tells
      how the leader ended exactly when the leader was collected, and lasts as long as it says. */
  method Run(k: K.Kernel, launch: PreparedLaunch)
    returns (u: Unpacked, ghost r: NativeRunResult, ghost started: nat, ghost log: seq<W.Call>)
    requires launch.Constructible()
    requires W.Inv(k.w) && !W.Born(k.w) && D.Pristine(k.w.fds) && k.w.fds == k.w.child.entry && k.w.calls == [] && k.w.naps == 0
    modifies k
    ensures u.Unpacked? && !u.result.stage.InvalidArgument? && k.w.fds == old(k.w).fds
    ensures u.result.Succeeded() <==> u.result.stage.Ok? && k.w.tree.fate == Reaped(Exited(0))
    ensures u.result.Succeeded() ==> W.Born(k.w) && k.w.child.program.Image?
    ensures u.result.exitCode.Some? || u.result.signal.Some? <==> k.w.tree.fate.Reaped?
    ensures u.result.timedOut ==> u.result.durationMs >= launch.timeoutMs && GivesGrace(log, launch.terminateGraceMs)
    ensures NativeArguments(launch).Crossing? && Outcome(NativeArguments(launch).process, k.w, r, started, log)
    ensures Repacked(u.result) == r && StartsInOrder(launch, k.w.calls, r)
    ensures W.Born(k.w) ==> ForkedFor(launch, k.w.child)
    ensures old(k.w).now <= started <= k.w.now && 0 <= k.w.now - started - u.result.durationMs * 1_000_000 < 1_000_000
    ensures 10 * k.w.naps <= launch.timeoutMs + 9 + launch.terminateGraceMs + 9
  {
    ConstructibleLaunchIsAcceptable(launch);
    hide W.Inv, D.Pristine, StartsInOrder, ForkedFor, GivesGrace;
    var process := NativeArguments(launch).process;
    var result;
    result, started, log := RunProcess(k, process);
    r := result;
    StartsAsLaunched(launch, k.w, result, started, log);
    GraceOfLaunch(process, k.w, result, started, log);
    EveryOutcomeCrosses(process, k.w, result, started, log);
    OutcomeIsInRange(process, k.w, result, started, log);
    KotlinNeverSeesInvalidArgument(launch, k.w, result, started, log);
    T.SucceededExactly(process, k.w, result, started, log);
    TimedOutLasts(process, k.w, result, started, log);
    CrossesWithTimes(launch);
    FewSleeps(k.w.naps, process.timeoutMs, process.terminateGraceMs);
    hide *;
    u := Unpack(PackResult(result));
    RepackedFields(u.result);
  }

  lemma TimedOutLasts(p: PreparedProcess, w: W.World, r: NativeRunResult, started: nat, log: seq<W.Call>)
    requires Outcome(p, w, r, started, log)
    ensures r.timedOut ==> r.durationMs >= p.timeoutMs
    ensures 0 <= w.now - started - r.durationMs * 1_000_000 < 1_000_000
  {
  }

  lemma CrossesWithTimes(l: PreparedLaunch)
    requires l.Constructible()
    ensures var c := NativeArguments(l);
            c.Crossing? && c.process.timeoutMs == l.timeoutMs > 0 && c.process.terminateGraceMs == l.terminateGraceMs >= 0
  {
  }

  lemma FewSleeps(naps: nat, timeoutMs: int, graceMs: int)
    requires timeoutMs >= 0 && graceMs >= 0 && naps <= NapsWithin(timeoutMs) + NapsWithin(graceMs)
    ensures 10 * naps <= timeoutMs + 9 + graceMs + 9
  {
  }

  lemma RepackedFields(k: KotlinRunResult)
    ensures var r := Repacked(k);
            && r.stage == k.stage && r.timedOut == k.timedOut && r.durationMs == k.durationMs
            && (k.exitCode.Some? ==> r.exitCode == k.exitCode.value) && (k.exitCode.None? ==> r.exitCode == -1)
            && (k.signal.Some? ==> r.signal == k.signal.value) && (k.signal.None? ==> r.signal == 0)
  {
  }
}
