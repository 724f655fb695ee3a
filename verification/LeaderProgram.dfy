/** What the forked leader does between fork and execve: nine setup steps in a fixed order, and on
    the first that fails a report of that step over the error pipe, then an exit. */
module LeaderProgram {
  import opened Posix
  import opened Wrappers
  import opened Descriptors

  /** Where the leader is: before its setup step `pc`, reporting that step `pc` failed with `error`
      after `sent` bytes of the record, or running the executed image. When the leader dies this
      stays what it was. */
  datatype Program =
    | Unborn
    | Setup(pc: nat)
    | Reporting(pc: nat, error: Errno, sent: nat)
    | Image

  const SETPGID: nat := 1
  const LIMITS: nat := 2
  const CHDIR: nat := 3
  const EXECVE: nat := 8
  const STEPS: nat := 9

  /** The steps whose failure the leader reports; it ignores what close answers. */
  predicate CanFail(step: nat) {
    step == 1 || step == 2 || step == 3 || step == 4 || step == 5 || step == 8
  }

  function StageOf(step: nat): SpawnStage {
    match step
    case 1 => Setpgid
    case 2 => ResourceLimit
    case 3 => Chdir
    case 4 => Dup2Stdout
    case 5 => Dup2Stderr
    case _ => Execve
  }

  function ExitCodeOf(step: nat): nat {
    match step
    case 1 => 121
    case 2 => 122
    case 3 => 123
    case 4 => 124
    case 5 => 124
    case _ => 127
  }

  datatype NativeResourceLimits = NativeResourceLimits(
    cpuSeconds: nat, maxOpenFiles: nat, maxFileBytes: nat, maxAddressSpaceBytes: nat)
  {
    predicate Any() {
      cpuSeconds != 0 || maxOpenFiles != 0 || maxFileBytes != 0 || maxAddressSpaceBytes != 0
    }
  }

  datatype Resource = CpuTime | OpenFiles | FileSize | AddressSpace

  /** What the leader is forked to do. */
  datatype Job = Job(
    executable: string, argv: seq<string>, envp: seq<string>, workingDirectory: string, limits: NativeResourceLimits)

  datatype Execution = Execution(path: string, argv: seq<string>, envp: seq<string>)

  /** What the kernel has been given for it by the steps that worked: the limits set, the directory
      changed to, and the arguments of execve. */
  datatype Given = Given(limits: seq<(Resource, nat)>, directory: Option<string>, image: Option<Execution>)

  const NOTHING_GIVEN := Given([], None, None)

  /** `answers`: error numbers of the setup steps so far, 0 for success. `written`: everything put
      into the error pipe. `entry`: the descriptors the supervisor started with. */
  datatype Child = Child(
    program: Program, answers: seq<nat>, fds: Table, written: seq<byte>, entry: Table, job: Job, given: Given)

  /** apply_limit: zero asks for nothing. */
  function AskedFor(resource: Resource, value: nat): seq<(Resource, nat)> {
    if value == 0 then [] else [(resource, value)]
  }

  function LimitsAsked(l: NativeResourceLimits): seq<(Resource, nat)> {
    AskedFor(CpuTime, l.cpuSeconds) + AskedFor(OpenFiles, l.maxOpenFiles)
    + AskedFor(FileSize, l.maxFileBytes) + AskedFor(AddressSpace, l.maxAddressSpaceBytes)
  }

  /** What a setup step that works gives the kernel. */
  function GivenBy(g: Given, job: Job, step: nat): Given {
    match step
    case 2 => g.(limits := LimitsAsked(job.limits))
    case 3 => g.(directory := Some(job.workingDirectory))
    case 8 => g.(image := Some(Execution(job.executable, job.argv, job.envp)))
    case _ => g
  }

  /** What the steps before `pc` have given it. */
  function GivenAt(job: Job, pc: nat): Given {
    if pc == 0 then NOTHING_GIVEN else GivenBy(GivenAt(job, pc - 1), job, pc - 1)
  }

  function StepsTaken(p: Program): nat {
    match p
    case Unborn => 0
    case Setup(pc) => pc
    case Reporting(pc, _, _) => pc
    case Image => STEPS
  }

  function Record(p: Program): (b: seq<byte>)
    requires p.Reporting?
    ensures |b| == RECORD_SIZE
  {
    RecordBytes(StageOf(p.pc), p.error)
  }

  /** The leader's answers say it succeeded at every step before the current one, and at the step it
      is reporting it got the error it reports; the pipe got exactly the part of the record that is
      out; the descriptors are those the steps produce. */
  ghost predicate ChildOk(c: Child) {
    var p, k := c.program, StepsTaken(c.program);
    && !p.Unborn?
    && (p.Setup? ==> k < STEPS)
    && (p.Reporting? ==> CanFail(k) && (k == LIMITS ==> c.job.limits.Any()) && p.sent <= RECORD_SIZE)
    && |c.answers| == k + (if p.Reporting? then 1 else 0)
    && (forall i :: 0 <= i < k ==> c.answers[i] == 0)
    && (p.Reporting? ==> c.answers[k] == p.error)
    && c.written == (if p.Reporting? then Record(p)[..p.sent] else [])
    && Pristine(c.entry)
    && c.fds == TableAt(Wired(c.entry), WiringOf(c.entry), k)
    && c.given == GivenAt(c.job, k)
  }

  function Advance(c: Child): Child
    requires c.program.Setup?
  {
    var pc := c.program.pc;
    c.(program := if pc == EXECVE then Image else Setup(pc + 1),
       answers := c.answers + [0],
       fds := AfterStep(c.fds, WiringOf(c.entry), pc),
       given := GivenBy(c.given, c.job, pc))
  }

  predicate MayFail(c: Child) {
    c.program.Setup? && CanFail(c.program.pc) && (c.program.pc == LIMITS ==> c.job.limits.Any())
  }

  function Fail(c: Child, error: Errno): Child
    requires c.program.Setup?
  {
    c.(program := Reporting(c.program.pc, error, 0), answers := c.answers + [error])
  }

  predicate MayWrite(c: Child, count: nat) {
    c.program.Reporting? && c.program.sent + count <= RECORD_SIZE
  }

  /** A write of `count` more bytes of the record, possibly fewer than were left. */
  function Write(c: Child, count: nat): Child
    requires MayWrite(c, count)
  {
    var r := c.program;
    c.(program := r.(sent := r.sent + count), written := c.written + Record(r)[r.sent..r.sent + count])
  }

  /** How the leader may have ended, from where its program stands. */
  predicate EndsLike(p: Program, s: WaitStatus) {
    s.Exited? ==> p.Image? || (p.Reporting? && s.code == ExitCodeOf(p.pc))
  }

  predicate ProgramMayBecome(p: Program, q: Program) {
    match p
    case Unborn => true
    case Setup(pc) => (q.Setup? && pc <= q.pc) || (q.Reporting? && pc <= q.pc) || q.Image?
    case Reporting(pc, error, sent) => q.Reporting? && q.pc == pc && q.error == error && sent <= q.sent
    case Image => q.Image?
  }

  predicate ChildLater(c: Child, d: Child) {
    c.entry == d.entry && c.job == d.job && c.written <= d.written && ProgramMayBecome(c.program, d.program)
  }

  lemma AdvanceKeeps(c: Child)
    requires ChildOk(c) && c.program.Setup?
    ensures ChildOk(Advance(c)) && ChildLater(c, Advance(c))
  {
    assert StepsTaken(Advance(c).program) == c.program.pc + 1;
  }

  lemma FailKeeps(c: Child, error: Errno)
    requires ChildOk(c) && MayFail(c)
    ensures ChildOk(Fail(c, error)) && ChildLater(c, Fail(c, error))
  {
  }

  lemma WriteKeeps(c: Child, count: nat)
    requires ChildOk(c) && MayWrite(c, count)
    ensures ChildOk(Write(c, count)) && ChildLater(c, Write(c, count))
  {
    var r := c.program;
    assert Record(r) == Record(r.(sent := r.sent + count));
    assert Record(r)[..r.sent] + Record(r)[r.sent..r.sent + count] == Record(r)[..r.sent + count];
  }

  /** The report end of the pipe is open in the leader's table exactly until execve succeeds. */
  lemma HoldsReportEndUntilExec(c: Child)
    requires ChildOk(c)
    ensures Holds(c.fds, PipeWrite) <==> !c.program.Image?
  {
    ReportEndLivesUntilExec(c.entry, StepsTaken(c.program));
  }

  /** The stage of a failure tells the step; its exit code does too, but for the two dup2 steps. */
  lemma FailuresTellSteps(a: nat, b: nat)
    requires CanFail(a) && CanFail(b)
    ensures StageOf(a) == StageOf(b) <==> a == b
    ensures ExitCodeOf(a) == ExitCodeOf(b) <==> a == b || (a in {4, 5} && b in {4, 5})
    ensures a < b <==> StageNumber(StageOf(a)) < StageNumber(StageOf(b))
  {
  }

  /** Every failure leaves with a code that is not zero, so it is never taken for a success. */
  lemma FailureCodesAreNotZero(step: nat)
    ensures 121 <= ExitCodeOf(step) <= 127
  {
  }
}
