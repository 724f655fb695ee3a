/** The forked leader and its descendants: process groups, pending signals, wait statuses
    (POSIX.1-2017 System Interfaces, sections 2.4 and 2.13), and what they may do on their own. */
module ProcessTree {
  import opened Posix
  import opened Wrappers

  type Pid = nat
  type Signal = nat

  datatype Life = Running | Zombie(status: WaitStatus)

  /** `permitted`: the supervisor may signal it. A process that has taken other credentials is not
      permitted any more, and neither are the processes it forks. `returned`: it, or the process it was
      forked from, has come back to the leader's group from another one. */
  datatype Process = Process(group: Pid, life: Life, pending: set<Signal>, permitted: bool, returned: bool) {
    /** Can do nothing more, or may not be stopped by the supervisor at all, or has come back. */
    predicate Halted() {
      life.Zombie? || SIGKILL in pending || !permitted || returned
    }
  }

  /** What became of the leader's wait status: still there, returned by one of the supervisor's
      waits, or consumed by somebody else (another thread's wait, or SIGCHLD being ignored). */
  datatype Fate = Uncollected | Reaped(status: WaitStatus) | Lost(status: WaitStatus)

  /** `procs`: the leader and its descendants until collected. `left`: the executed image moved the
      leader to another process group. */
  datatype Tree = Tree(leader: Pid, procs: map<Pid, Process>, fate: Fate, left: bool) {
    predicate Runs(p: Pid) {
      p in procs && procs[p].life.Running?
    }

    /** Runs and may still execute code: nothing with SIGKILL pending does. */
    predicate Steps(p: Pid) {
      Runs(p) && SIGKILL !in procs[p].pending
    }

    predicate Member(p: Pid) {
      p in procs && procs[p].group == leader
    }

    predicate GroupEmpty() {
      forall p :: p in procs ==> procs[p].group != leader
    }

    predicate SomePermitted() {
      exists p :: p in procs && procs[p].group == leader && procs[p].permitted
    }

    /** Nothing in the leader's group can run any more code, except what may not be signalled and what
        has come back to the group. */
    predicate Contained() {
      forall p :: p in procs && procs[p].group == leader ==> procs[p].Halted()
    }

    /** How the leader ended, once it has. */
    function Ending(): Option<WaitStatus> {
      match fate
      case Reaped(s) => Some(s)
      case Lost(s) => Some(s)
      case Uncollected =>
        if leader in procs && procs[leader].life.Zombie? then Some(procs[leader].life.status) else None
    }

    /** The leader is there until its status has been consumed. */
    predicate Valid() {
      && (leader in procs <==> fate.Uncollected?)
      && (Ending().Some? ==> Ending().value.Valid())
    }

    /** Only the leader, untouched by anything an executed image may do. */
    predicate Childless() {
      !left && forall p :: p in procs ==> p == leader && procs[p].permitted
    }

    function Set(p: Pid, q: Process): Tree {
      this.(procs := procs[p := q])
    }

    function Remove(p: Pid): Tree {
      this.(procs := procs - {p})
    }
  }

  datatype ProcessEvent =
    | Exits(p: Pid, code: nat)
    | Dies(p: Pid, sig: Signal, core: bool)      // killed, whoever sent the signal
    | Handles(p: Pid, sig: Signal)               // a signal caught or ignored
    | Forks(p: Pid, child: Pid)
    | MovesTo(p: Pid, group: Pid)                // to a group that is there, or is no concern here
    | ChangesCredentials(p: Pid)
    | Collected(p: Pid)                          // a descendant reaped by its parent or by init
    | Stolen                                     // the leader's status consumed by somebody else

  /** `image`: the leader runs the executed image. Before that its own code only dies or is told to
      exit by the setup program, which is not one of these events. */
  function TreeStep(t: Tree, image: bool, e: ProcessEvent): Tree {
    match e
    case Exits(p, code) =>
      if t.Runs(p) && (p == t.leader ==> image) && code <= 255
      then t.Set(p, t.procs[p].(life := Zombie(Exited(code)))) else t
    case Dies(p, sig, core) =>
      if t.Runs(p) && 1 <= sig <= 64
      then t.Set(p, t.procs[p].(life := Zombie(Signaled(sig, core)))) else t
    case Handles(p, sig) =>
      if t.Runs(p) && sig != SIGKILL
      then t.Set(p, t.procs[p].(pending := t.procs[p].pending - {sig})) else t
    case Forks(p, child) =>
      if t.Steps(p) && (p == t.leader ==> image) && child !in t.procs && child != t.leader
      then t.Set(child, t.procs[p].(pending := {})) else t
    case MovesTo(p, group) =>
      if t.Steps(p) && (p == t.leader ==> image) && (group == t.leader ==> !t.GroupEmpty())
      then t.Set(p, t.procs[p].(group := group, returned := t.procs[p].returned || (group == t.leader && !t.Member(p))))
            .(left := t.left || (p == t.leader && group != t.leader))
      else t
    case ChangesCredentials(p) =>
      if t.Steps(p) && (p == t.leader ==> image)
      then t.Set(p, t.procs[p].(permitted := false)) else t
    case Collected(p) =>
      if p in t.procs && p != t.leader && t.procs[p].life.Zombie? then t.Remove(p) else t
    case Stolen =>
      if t.leader in t.procs && t.procs[t.leader].life.Zombie?
      then t.Remove(t.leader).(fate := Lost(t.procs[t.leader].life.status)) else t
  }

  /** A group that is empty is gone for good, and nothing halted resumes: what comes back counts as
      halted, and is told apart by its flag. */
  ghost predicate TreeLater(t: Tree, u: Tree) {
    && u.leader == t.leader
    && (t.Ending().Some? ==> u.Ending() == t.Ending())
    && (!t.fate.Uncollected? ==> u.fate == t.fate)
    && (t.left ==> u.left)
    && (t.Contained() ==> u.Contained())
    && (t.GroupEmpty() ==> u.GroupEmpty())
  }

  lemma TreeStepKeepsValid(t: Tree, image: bool, e: ProcessEvent)
    requires t.Valid()
    ensures TreeStep(t, image, e).Valid()
  {
  }

  lemma TreeStepKeepsChildless(t: Tree, e: ProcessEvent)
    requires t.Childless()
    ensures TreeStep(t, false, e).Childless()
  {
  }

  lemma TreeStepIsLater(t: Tree, image: bool, e: ProcessEvent)
    requires t.Valid()
    ensures TreeLater(t, TreeStep(t, image, e))
  {
  }

  /** The leader's group changes only by the leader's own move. */
  lemma TreeStepKeepsLeaderGroup(t: Tree, image: bool, e: ProcessEvent)
    ensures var u := TreeStep(t, image, e);
            u.leader in u.procs && !u.left ==>
              t.leader in t.procs && !t.left && (u.procs[u.leader].group == t.procs[t.leader].group || u.Member(u.leader))
  {
  }

  /** Only the supervisor reaps the leader. */
  lemma TreeStepReapsNothing(t: Tree, image: bool, e: ProcessEvent)
    ensures var u := TreeStep(t, image, e); u.fate.Reaped? ==> u.fate == t.fate
  {
  }

  lemma NobodyMoves(t: Tree, image: bool, e: ProcessEvent)
    requires t.procs == map[]
    ensures TreeStep(t, image, e) == t
  {
  }

  /** The leader ends by itself only when it runs the image. */
  lemma TreeStepEnding(t: Tree, e: ProcessEvent)
    requires t.Ending().None?
    ensures var u := TreeStep(t, false, e); u.Ending().Some? ==> u.Ending().value.Signaled?
  {
  }
}
