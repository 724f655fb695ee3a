/** The numbers the supervisor exchanges with the kernel: error numbers, signals, wait statuses, and
    the fixed-size failure record the child writes to the error pipe. */
module Posix {
  import opened Wrappers

  type byte = b: int | 0 <= b < 256

  /** Linux error numbers. */
  type Errno = e: int | 1 <= e <= 4095 witness 1

  const EINTR: Errno := 4
  const EIO: Errno := 5
  const ECHILD: Errno := 10
  const EINVAL: Errno := 22
  const ESRCH: Errno := 3
  const EPERM: Errno := 1
  const EPROTO: Errno := 71

  const SIGKILL: nat := 9
  const SIGTERM: nat := 15

  // ---- wait statuses -------------------------------------------------------------------------

  datatype WaitStatus = Exited(code: nat) | Signaled(sig: nat, core: bool) {
    predicate Valid() {
      match this
      case Exited(code) => code <= 255
      case Signaled(sig, _) => 1 <= sig <= 64
    }
  }

  /** The status word waitpid stores: an exit code in bits 8-15, or a signal in bits 0-6 with the
      core flag in bit 7. */
  function StatusWord(s: WaitStatus): int {
    match s
    case Exited(code) => code * 256
    case Signaled(sig, core) => sig + (if core then 128 else 0)
  }

  predicate WIFEXITED(status: int) { status % 128 == 0 }
  function WEXITSTATUS(status: int): int { status / 256 % 256 }
  predicate WIFSIGNALED(status: int) { 1 <= status % 128 <= 126 }
  function WTERMSIG(status: int): int { status % 128 }

  lemma StatusWordDecodes(s: WaitStatus)
    requires s.Valid()
    ensures WIFEXITED(StatusWord(s)) <==> s.Exited?
    ensures WIFSIGNALED(StatusWord(s)) <==> s.Signaled?
    ensures s.Exited? ==> WEXITSTATUS(StatusWord(s)) == s.code
    ensures s.Signaled? ==> WTERMSIG(StatusWord(s)) == s.sig
  {
    if s.Exited? {
      assert s.code * 256 % 128 == 0;
    }
  }

  // ---- spawn stages --------------------------------------------------------------------------

  datatype SpawnStage =
    | Ok | InvalidArgument | OpenStdout | OpenStderr | ErrorPipe | Fork | Setpgid | ResourceLimit
    | Chdir | Dup2Stdout | Dup2Stderr | Execve | Waitpid | TimeoutKill

  const STAGES: seq<SpawnStage> := [
    Ok, InvalidArgument, OpenStdout, OpenStderr, ErrorPipe, Fork, Setpgid, ResourceLimit,
    Chdir, Dup2Stdout, Dup2Stderr, Execve, Waitpid, TimeoutKill]

  function StageNumber(stage: SpawnStage): (n: nat)
    ensures n < |STAGES| && STAGES[n] == stage
  {
    match stage
    case Ok => 0
    case InvalidArgument => 1
    case OpenStdout => 2
    case OpenStderr => 3
    case ErrorPipe => 4
    case Fork => 5
    case Setpgid => 6
    case ResourceLimit => 7
    case Chdir => 8
    case Dup2Stdout => 9
    case Dup2Stderr => 10
    case Execve => 11
    case Waitpid => 12
    case TimeoutKill => 13
  }

  // ---- the failure record --------------------------------------------------------------------

  /** A non-negative 32-bit integer as it lies in memory on the supported little-endian ABIs. */
  function IntBytes(x: nat): seq<byte>
    requires x < 0x8000_0000
  {
    [x % 256, x / 256 % 256, x / 65536 % 256, x / 16777216 % 256]
  }

  function IntAt(b: seq<byte>, at: nat): nat
    requires at + 4 <= |b|
  {
    var b0: int, b1: int, b2: int, b3: int := b[at], b[at + 1], b[at + 2], b[at + 3];
    b0 + 256 * b1 + 65536 * b2 + 16777216 * b3
  }

  lemma IntBytesDecode(x: nat)
    requires x < 0x8000_0000
    ensures IntAt(IntBytes(x), 0) == x
  {
    assert x / 65536 == x / 256 / 256;
    assert x / 16777216 == x / 65536 / 256;
  }

  const RECORD_SIZE: nat := 8

  /** The bytes of the record: stage number, then error number. */
  function RecordBytes(stage: SpawnStage, error: Errno): (b: seq<byte>)
    ensures |b| == RECORD_SIZE
  {
    IntBytes(StageNumber(stage)) + IntBytes(error)
  }

  lemma RecordDecodes(stage: SpawnStage, error: Errno)
    ensures IntAt(RecordBytes(stage, error), 0) == StageNumber(stage)
    ensures IntAt(RecordBytes(stage, error), 4) == error
  {
    IntBytesDecode(StageNumber(stage));
    IntBytesDecode(error);
  }
}
