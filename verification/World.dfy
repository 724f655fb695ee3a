/** The world the supervisor runs in, as a transition system: the clock, the supervisor's
    descriptors, the error pipe, the forked leader and every descendant of it. An `Event` is one
    atomic step of anything that is not the supervisor; a schedule is a finite sequence of events. */
module World {
  import opened Posix
  import opened Descriptors
  import opened ProcessTree
  import opened LeaderProgram

  datatype Answer = Success | Failed(error: Errno)

  datatype SignalTarget = ToGroup | ToLeader

  /** The supervisor's calls whose answers its result must account for, in order. `seen`: the processes
      as a signal finds them. */
  datatype Call =
    | OpenCall(path: string, file: File, answer: Answer)
    | PipeCall(answer: Answer)
    | ForkCall(answer: Answer)
    | ReadFailure(error: Errno)
    | SignalCall(sig: Signal, target: SignalTarget, at: nat, seen: Tree, answer: Answer)
    | WaitFailure(error: Errno)

  /** `now`: monotonic clock in nanoseconds. `naps`: sleeps the supervisor has taken. `taken`: how
      much of the pipe it has read. `grouped`: it has made its own setpgid call. `strangers`:
      unrelated processes that inherited the pipe's write end. */
  datatype World = World(
    now: nat, fds: Table, calls: seq<Call>, naps: nat, taken: nat, grouped: bool,
    strangers: nat, child: Child, tree: Tree)

  predicate Born(w: World) {
    !w.child.program.Unborn?
  }

  /** Some descriptor of the pipe's write end is open somewhere. */
  predicate HasWriter(w: World) {
    Holds(w.fds, PipeWrite) || w.strangers > 0 || (w.tree.Runs(w.tree.leader) && Holds(w.child.fds, PipeWrite))
  }

  // ---- events --------------------------------------------------------------------------------

  datatype Event =
    | Tick(ns: nat)
    | SetupSucceeds
    | SetupFails(error: Errno)
    | Report(count: nat)                         // a write, possibly short
    | ReportEnds                                 // the record is out, or a write failed: _exit
    | StrangerInherits
    | StrangerReleases(count: nat)
    | Elsewhere(e: ProcessEvent)

  function Regrouped(t: Tree): Tree
    requires t.leader in t.procs
  {
    t.Set(t.leader, t.procs[t.leader].(group := t.leader))
  }

  function LeaderExits(t: Tree, code: nat): Tree
    requires t.leader in t.procs
  {
    t.Set(t.leader, t.procs[t.leader].(life := Zombie(Exited(code))))
  }

  /** One event. An event that is not possible changes nothing. */
  function Step(w: World, e: Event): World {
    var c, t := w.child, w.tree;
    match e
    case Tick(ns) => w.(now := w.now + ns)
    case SetupSucceeds =>
      if t.Steps(t.leader) && c.program.Setup?
      then w.(child := Advance(c), tree := if c.program.pc == SETPGID then Regrouped(t) else t) else w
    case SetupFails(error) =>
      if t.Steps(t.leader) && MayFail(c) then w.(child := Fail(c, error)) else w
    case Report(count) =>
      if t.Steps(t.leader) && MayWrite(c, count) then w.(child := Write(c, count)) else w
    case ReportEnds =>
      if t.Steps(t.leader) && c.program.Reporting?
      then w.(tree := LeaderExits(t, ExitCodeOf(c.program.pc))) else w
    case StrangerInherits =>
      if Holds(w.fds, PipeWrite) then w.(strangers := w.strangers + 1) else w
    case StrangerReleases(count) =>
      if count <= w.strangers then w.(strangers := w.strangers - count) else w
    case Elsewhere(e) =>
      w.(tree := TreeStep(t, c.program.Image?, e))
  }

  function Run(w: World, schedule: seq<Event>): World
    decreases |schedule|
  {
    if schedule == [] then w else Run(Step(w, schedule[0]), schedule[1..])
  }

  /** `b` comes after `a` by events of the environment alone. */
  ghost predicate Reaches(a: World, b: World) {
    exists schedule :: Run(a, schedule) == b
  }

  lemma RunReaches(a: World, schedule: seq<Event>)
    ensures Reaches(a, Run(a, schedule))
  {
  }

  lemma {:induction false} RunConcat(w: World, a: seq<Event>, b: seq<Event>)
    ensures Run(w, a + b) == Run(Run(w, a), b)
    decreases |a|
  {
    hide Step;
    if a == [] {
      assert a + b == b;
    } else {
      assert (a + b)[1..] == a[1..] + b;
      RunConcat(Step(w, a[0]), a[1..], b);
    }
  }

  lemma ReachesTransitive(a: World, b: World, c: World)
    requires Reaches(a, b) && Reaches(b, c)
    ensures Reaches(a, c)
  {
    var s: seq<Event> :| Run(a, s) == b;
    var t: seq<Event> :| Run(b, t) == c;
    hide Run, Reaches;
    RunConcat(a, s, t);
    RunReaches(a, s + t);
  }

  // ---- the invariant of every reachable world ------------------------------------------------

  /** The double setpgid: once either side has made its call, a leader that has not moved itself is in
      the group named by its own pid. */
  predicate LeaderGrouped(w: World) {
    w.tree.leader in w.tree.procs && !w.tree.left && (w.grouped || StepsTaken(w.child.program) > SETPGID) ==>
      w.tree.Member(w.tree.leader)
  }

  predicate EndingOk(w: World) {
    w.tree.Ending().Some? ==> EndsLike(w.child.program, w.tree.Ending().value)
  }

  ghost predicate Inv(w: World) {
    if Born(w) then
      && w.tree.leader > 0 && ChildOk(w.child) && w.taken <= |w.child.written|
      && w.tree.Valid() && (!w.child.program.Image? ==> w.tree.Childless())
      && EndingOk(w) && LeaderGrouped(w)
    else
      && w.tree.procs == map[] && w.tree.fate.Uncollected? && !w.tree.left
      && w.taken == 0 && w.child.written == [] && !w.grouped
  }

  // ---- what no step ever undoes --------------------------------------------------------------

  /** `b` may come after `a`, by steps of the supervisor or of anything else. */
  ghost predicate Later(a: World, b: World) {
    && a.now <= b.now
    && (a.grouped ==> b.grouped)
    && (Born(a) ==>
        && Born(b)
        && ChildLater(a.child, b.child)
        && (a.tree.Ending().Some? ==> b.child == a.child)
        && b.tree.leader == a.tree.leader
        && (a.tree.Ending().Some? ==> b.tree.Ending() == a.tree.Ending())
        && (!a.tree.fate.Uncollected? ==> b.tree.fate == a.tree.fate)
        && (a.tree.left ==> b.tree.left)
        && (a.grouped && a.tree.Contained() ==> b.tree.Contained())
        && (a.grouped && a.tree.GroupEmpty() ==> b.tree.GroupEmpty()))
  }

  /** Nothing that only the supervisor changes has changed. */
  predicate SameOwn(a: World, b: World) {
    && b.fds == a.fds && b.calls == a.calls && b.naps == a.naps && b.taken == a.taken && b.grouped == a.grouped
    && (Born(a) <==> Born(b))
    && (!Born(a) ==> b.child == a.child && b.tree == a.tree)
    && (a.tree.fate.Reaped? || b.tree.fate.Reaped? ==> a.tree.fate == b.tree.fate)
  }

  lemma LaterReflexive(w: World)
    ensures Later(w, w)
  {
  }

  lemma LaterTransitive(a: World, b: World, c: World)
    requires Later(a, b) && Later(b, c)
    ensures Later(a, c)
  {
  }

  lemma SetupKeeps(w: World, e: Event)
    requires Inv(w) && (e.SetupSucceeds? || e.SetupFails?)
    ensures Inv(Step(w, e)) && Later(w, Step(w, e)) && SameOwn(w, Step(w, e))
  {
    hide TableAt, Wired, WiringOf, Pristine, RecordBytes, Record, AfterStep, GivenAt, GivenBy;
    if w.tree.Steps(w.tree.leader) {
      match e
      case SetupSucceeds => if w.child.program.Setup? { AdvanceKeeps(w.child); }
      case SetupFails(error) => if MayFail(w.child) { FailKeeps(w.child, error); }
    }
  }

  lemma ReportKeeps(w: World, e: Event)
    requires Inv(w) && (e.Report? || e.ReportEnds?)
    ensures Inv(Step(w, e)) && Later(w, Step(w, e)) && SameOwn(w, Step(w, e))
  {
    hide TableAt, Wired, WiringOf, Pristine, RecordBytes, Record, AfterStep, GivenAt, GivenBy;
    if w.tree.Steps(w.tree.leader) {
      match e
      case Report(count) => if MayWrite(w.child, count) { WriteKeeps(w.child, count); }
      case ReportEnds => if w.child.program.Reporting? { FailureCodesAreNotZero(w.child.program.pc); }
    }
  }

  lemma ElsewhereKeeps(w: World, e: ProcessEvent)
    requires Inv(w)
    ensures Inv(Step(w, Elsewhere(e))) && Later(w, Step(w, Elsewhere(e))) && SameOwn(w, Step(w, Elsewhere(e)))
  {
    hide ChildOk, TreeStep, Tree.Valid, Tree.Contained, Tree.GroupEmpty;
    if Born(w) {
      TreeStepKeepsValid(w.tree, w.child.program.Image?, e);
      TreeStepIsLater(w.tree, w.child.program.Image?, e);
      TreeStepReapsNothing(w.tree, w.child.program.Image?, e);
      if !w.child.program.Image? {
        TreeStepKeepsChildless(w.tree, e);
        if w.tree.Ending().None? {
          TreeStepEnding(w.tree, e);
        }
      }
      TreeStepKeepsLeaderGroup(w.tree, w.child.program.Image?, e);
    } else {
      NobodyMoves(w.tree, w.child.program.Image?, e);
    }
  }

  lemma ChildLaterReflexive(c: Child)
    ensures ChildLater(c, c)
  {
  }

  lemma QuietStepKeeps(w: World, e: Event)
    requires Inv(w) && (e.Tick? || e.StrangerInherits? || e.StrangerReleases?)
    ensures Inv(Step(w, e)) && Later(w, Step(w, e)) && SameOwn(w, Step(w, e))
  {
    hide ChildOk, ChildLater, Tree.Valid, Tree.Contained, Tree.GroupEmpty, Tree.Childless, Tree.Ending, EndsLike, TreeStep;
    ChildLaterReflexive(w.child);
    var v := Step(w, e);
    assert v.child == w.child && v.tree == w.tree;
  }

  lemma StepKeeps(w: World, e: Event)
    requires Inv(w)
    ensures Inv(Step(w, e)) && Later(w, Step(w, e)) && SameOwn(w, Step(w, e))
  {
    hide Inv, Later, SameOwn, Step;
    if e.Elsewhere? {
      ElsewhereKeeps(w, e.e);
    } else if e.Tick? || e.StrangerInherits? || e.StrangerReleases? {
      QuietStepKeeps(w, e);
    } else if e.SetupSucceeds? || e.SetupFails? {
      SetupKeeps(w, e);
    } else {
      ReportKeeps(w, e);
    }
  }

  /** Every run of the environment keeps the invariant and is one long `Later`. */
  lemma {:induction false} RunKeeps(w: World, schedule: seq<Event>)
    requires Inv(w)
    ensures Inv(Run(w, schedule)) && Later(w, Run(w, schedule)) && SameOwn(w, Run(w, schedule))
    decreases |schedule|
  {
    hide Inv, Later, Step;
    if schedule == [] {
      LaterReflexive(w);
    } else {
      var v := Step(w, schedule[0]);
      StepKeeps(w, schedule[0]);
      RunKeeps(v, schedule[1..]);
      LaterTransitive(w, v, Run(w, schedule));
    }
  }
}
