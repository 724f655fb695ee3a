/** The system calls the supervisor makes. Between any two of them everything else in the world runs
    an arbitrary schedule; every call may fail, be interrupted or come up short. A blocking call that
    never returns has no state after it, so it is enough to cover the schedules in which it does. */
module Kernel {
  import opened Posix
  import opened Descriptors
  import opened ProcessTree
  import opened LeaderProgram
  import opened World

  const NS_PER_MS: nat := 1_000_000

  // ---- what the calls do to the process tree -------------------------------------------------

  /** Adds a signal to every running process of the group that may be signalled. */
  function SignalMembers(t: Tree, sig: Signal): Tree {
    t.(procs := map p | p in t.procs ::
         if t.procs[p].group == t.leader && t.procs[p].permitted && t.procs[p].life.Running?
         then t.procs[p].(pending := t.procs[p].pending + {sig}) else t.procs[p])
  }

  /** Adds a signal to the leader alone. */
  function SignalLeader(t: Tree, sig: Signal): Tree
    requires t.leader in t.procs
  {
    var q := t.procs[t.leader];
    if q.life.Running? then t.Set(t.leader, q.(pending := q.pending + {sig})) else t
  }

  function GroupAnswer(t: Tree): Answer {
    if t.SomePermitted() then Success else if t.GroupEmpty() then Failed(ESRCH) else Failed(EPERM)
  }

  function LeaderAnswer(t: Tree): Answer {
    if t.leader !in t.procs then Failed(ESRCH) else if t.procs[t.leader].permitted then Success else Failed(EPERM)
  }

  function GroupCall(w: World, sig: Signal): Call {
    SignalCall(sig, ToGroup, w.now, w.tree, GroupAnswer(w.tree))
  }

  function LeaderCall(w: World, sig: Signal): Call {
    SignalCall(sig, ToLeader, w.now, w.tree, LeaderAnswer(w.tree))
  }

  /** The world right after kill(-pid, sig). */
  function GroupKilled(w: World, sig: Signal): World {
    w.(tree := if GroupAnswer(w.tree).Success? then SignalMembers(w.tree, sig) else w.tree,
       calls := w.calls + [GroupCall(w, sig)])
  }

  /** The world right after kill(pid, sig). */
  function LeaderKilled(w: World, sig: Signal): World {
    w.(tree := if LeaderAnswer(w.tree).Success? then SignalLeader(w.tree, sig) else w.tree,
       calls := w.calls + [LeaderCall(w, sig)])
  }

  /** A signal reached a process: it was sent to that process or its group, and the process was running
      and might be signalled. */
  predicate Hits(c: Call, p: Pid) {
    && c.SignalCall? && c.seen.Runs(p) && c.seen.procs[p].permitted
    && (if c.target.ToGroup? then c.seen.Member(p) else p == c.seen.leader)
  }

  /** What a logged call is said to have reached is what it has reached: after kill(-pid, sig) and after
      kill(pid, sig) exactly the processes hit have the signal pending besides what they had. */
  lemma DeliveryIsAsLogged(w: World, sig: Signal, p: Pid)
    requires p in w.tree.procs
    ensures p in GroupKilled(w, sig).tree.procs && p in LeaderKilled(w, sig).tree.procs
    ensures var q := w.tree.procs[p];
            && GroupKilled(w, sig).tree.procs[p] == (if Hits(GroupCall(w, sig), p) then q.(pending := q.pending + {sig}) else q)
            && LeaderKilled(w, sig).tree.procs[p] == (if Hits(LeaderCall(w, sig), p) then q.(pending := q.pending + {sig}) else q)
  {
  }

  function CollectLeader(t: Tree): Tree
    requires t.leader in t.procs && t.procs[t.leader].life.Zombie?
  {
    t.Remove(t.leader).(fate := Reaped(t.procs[t.leader].life.status))
  }

  /** After SIGKILL to the group nothing in it runs on, whichever answer kill gives. */
  lemma KillContains(t: Tree)
    ensures t.SomePermitted() ==> SignalMembers(t, SIGKILL).Contained()
    ensures !t.SomePermitted() ==> t.Contained()
  {
  }

  // ---- every effect of a call keeps the invariant --------------------------------------------

  /** The clock going on, descriptors, the log and the sleep count do not touch the invariant. */
  lemma BookkeepingKeeps(w: World, v: World)
    requires Inv(w) && w.now <= v.now
    requires v == w.(now := v.now, fds := v.fds, calls := v.calls, naps := v.naps)
    ensures Inv(v) && Later(w, v)
  {
  }

  lemma TakingKeeps(w: World, count: nat)
    requires Inv(w) && Born(w) && w.taken + count <= |w.child.written|
    ensures Inv(w.(taken := w.taken + count)) && Later(w, w.(taken := w.taken + count))
  {
  }

  function Birth(w: World, pid: Pid, home: Pid, job: Job): World {
    w.(child := Child(Setup(0), [], w.fds, [], w.child.entry, job, NOTHING_GIVEN),
       tree := Tree(pid, map[pid := Process(home, Running, {}, true, false)], Uncollected, false))
  }

  lemma BirthKeeps(w: World, pid: Pid, home: Pid, job: Job)
    requires Inv(w) && !Born(w) && pid > 0 && Pristine(w.child.entry) && w.fds == Wired(w.child.entry)
    ensures Inv(Birth(w, pid, home, job))
  {
    assert TableAt(Wired(w.child.entry), WiringOf(w.child.entry), 0) == w.fds;
  }

  function ParentGroups(w: World): World {
    var v := w.(grouped := true);
    if w.tree.leader in w.tree.procs && !w.child.program.Image? then v.(tree := Regrouped(w.tree)) else v
  }

  lemma ParentGroupsKeeps(w: World)
    requires Inv(w) && Born(w) && !w.grouped
    ensures Inv(ParentGroups(w)) && Later(w, ParentGroups(w))
  {
    var v := ParentGroups(w);
    assert v.tree.Ending() == w.tree.Ending();
    assert v.tree.Valid();
  }

  lemma CollectKeeps(w: World)
    requires Inv(w) && Born(w) && w.tree.leader in w.tree.procs && w.tree.procs[w.tree.leader].life.Zombie?
    ensures Inv(w.(tree := CollectLeader(w.tree))) && Later(w, w.(tree := CollectLeader(w.tree)))
  {
    assert CollectLeader(w.tree).Ending() == w.tree.Ending();
  }

  lemma SignallingKeeps(w: World, t: Tree, sig: Signal)
    requires Inv(w) && Born(w)
    requires t == w.tree || t == SignalMembers(w.tree, sig) || (w.tree.leader in w.tree.procs && t == SignalLeader(w.tree, sig))
    ensures Inv(w.(tree := t)) && Later(w, w.(tree := t))
    ensures t.fate == w.tree.fate && t.leader == w.tree.leader
  {
    hide ChildOk, SignalMembers, SignalLeader;
    SignalsMoveNobody(w.tree, t, sig);
    hide Tree.Childless, Tree.Contained, Tree.GroupEmpty;
    assert t.Ending() == w.tree.Ending();
  }

  /** A signal by itself changes no group, ends nothing and lets nothing run on. */
  lemma SignalsMoveNobody(t: Tree, u: Tree, sig: Signal)
    requires u == t || u == SignalMembers(t, sig) || (t.leader in t.procs && u == SignalLeader(t, sig))
    ensures u.procs.Keys == t.procs.Keys && u.leader == t.leader && u.fate == t.fate && u.left == t.left
    ensures forall p :: p in t.procs ==>
              u.procs[p].group == t.procs[p].group && u.procs[p].life == t.procs[p].life
              && u.procs[p].permitted == t.procs[p].permitted && t.procs[p].pending <= u.procs[p].pending
    ensures (t.Childless() ==> u.Childless()) && (t.Member(t.leader) ==> u.Member(u.leader))
    ensures (t.Contained() ==> u.Contained()) && (t.GroupEmpty() ==> u.GroupEmpty())
  {
  }

  /** The leader is in the process table exactly until its status is consumed. */
  lemma UncollectedIsThere(w: World)
    requires Inv(w) && Born(w)
    ensures w.tree.leader > 0 && (w.tree.leader in w.tree.procs <==> w.tree.fate.Uncollected?)
    ensures w.taken <= |w.child.written| <= RECORD_SIZE && Pristine(w.child.entry)
  {
  }

  /** What is contained stays contained. */
  lemma LaterStaysContained(a: World, b: World)
    requires Later(a, b) && Born(a) && a.grouped
    ensures a.tree.Contained() ==> b.tree.Contained()
    ensures a.tree.GroupEmpty() ==> b.tree.GroupEmpty()
  {
  }

  /** Killing the leader and letting go of inherited descriptors leaves the pipe without a writer. */
  lemma NoWriterAfter(w: World)
    requires Born(w) && !Holds(w.fds, PipeWrite)
    ensures var v := Run(w, [Elsewhere(Dies(w.tree.leader, SIGKILL, false)), StrangerReleases(w.strangers)]);
            !HasWriter(v)
  {
    var e, f := Elsewhere(Dies(w.tree.leader, SIGKILL, false)), StrangerReleases(w.strangers);
    var u := Step(w, e);
    assert !u.tree.Runs(u.tree.leader) && u.strangers == w.strangers && u.fds == w.fds && u.child == w.child;
    var v := Step(u, f);
    assert v == u.(strangers := 0);
    assert [e, f][1..] == [f] && [f][1..] == [];
    assert Run(v, []) == v;
    assert Run(u, [f]) == Run(v, []);
    assert Run(w, [e, f]) == Run(u, [f]);
  }

  const NOBODYS_JOB := Job("", [], [], "", NativeResourceLimits(0, 0, 0, 0))

  /** Before the fork: only the clock, the descriptors and the log have changed. */
  predicate OnlyOpened(a: World, b: World) {
    a.now <= b.now && b == a.(now := b.now, strangers := b.strangers, fds := b.fds, calls := b.calls)
  }

  lemma UnbornOnlyOpened(a: World, b: World)
    requires !Born(a) && Later(a, b) && SameOwn(a, b)
    ensures OnlyOpened(a, b) && b.fds == a.fds && b.calls == a.calls
  {
  }

  class Kernel {
    var w: World
    var interrupts: nat   // how many more times a signal handler will interrupt a call

    constructor (entry: Table, interrupts: nat, now: nat)
      requires Pristine(entry)
      ensures Inv(w) && !Born(w) && w.fds == entry && w.child.entry == entry
      ensures w.calls == [] && w.naps == 0 && w.now == now
    {
      this.interrupts := interrupts;
      w := World(now, entry, [], 0, 0, false, 0,
                 Child(Unborn, [], entry, [], entry, NOBODYS_JOB, NOTHING_GIVEN), Tree(0, map[], Uncollected, false));
    }

    /** Everything that is not the supervisor takes any number of steps. */
    method Interfere()
      requires Inv(w)
      modifies this`w
      ensures Inv(w) && Later(old(w), w) && SameOwn(old(w), w) && Reaches(old(w), w)
    {
      hide Inv, Later, SameOwn, Reaches;
      var schedule: seq<Event> := *;
      RunReaches(w, schedule);
      RunKeeps(w, schedule);
      w := Run(w, schedule);
    }

    method Interrupted() returns (yes: bool)
      modifies this`interrupts
      ensures interrupts <= old(interrupts) && (yes ==> interrupts < old(interrupts))
    {
      yes := *;
      if yes && interrupts > 0 {
        interrupts := interrupts - 1;
      } else {
        yes := false;
      }
    }

    method AnyError() returns (error: Errno)
    {
      error := *;
    }

    method Now() returns (t: nat)
      requires Inv(w)
      modifies this`w
      ensures Inv(w) && Later(old(w), w) && SameOwn(old(w), w) && t == w.now
    {
      hide Inv, Reaches, Later, SameOwn;
      Interfere();
      t := w.now;
    }

    method Sleep(ms: nat)
      requires Inv(w)
      modifies this`w
      ensures Inv(w) && Later(old(w), w) && SameOwn(old(w).(naps := old(w).naps + 1), w)
      ensures w.now >= old(w).now + ms * NS_PER_MS
    {
      hide Inv, Reaches;
      w := w.(now := w.now + ms * NS_PER_MS, naps := w.naps + 1);
      ghost var mid := w;
      BookkeepingKeeps(old(w), mid);
      Interfere();
      LaterTransitive(old(w), mid, w);
    }

    method Open(path: string, file: File) returns (fd: int, errno: int)
      requires Inv(w) && !Born(w)
      modifies this`w
      ensures Inv(w) && OnlyOpened(old(w), w)
      ensures fd >= 0 ==> fd == LowestFree(old(w).fds) && w.fds == Allocate(old(w).fds, file)
                          && w.calls == old(w).calls + [OpenCall(path, file, Success)]
      ensures fd < 0 ==> w.fds == old(w).fds && 1 <= errno <= 4095
                         && w.calls == old(w).calls + [OpenCall(path, file, Failed(errno))]
    {
      hide Inv, Reaches, Later;
      Interfere();
      UnbornOnlyOpened(old(w), w);
      hide SameOwn;
      ghost var before := w;
      var works: bool := *;
      if works {
        fd, errno := LowestFree(w.fds), 0;
        w := w.(fds := Allocate(w.fds, file), calls := w.calls + [OpenCall(path, file, Success)]);
      } else {
        fd := -1;
        errno := AnyError();
        w := w.(calls := w.calls + [OpenCall(path, file, Failed(errno))]);
      }
      BookkeepingKeeps(before, w);
    }

    method Pipe() returns (rd: int, wr: int, errno: int)
      requires Inv(w) && !Born(w)
      modifies this`w
      ensures Inv(w) && OnlyOpened(old(w), w)
      ensures rd >= 0 ==>
                var t := Allocate(old(w).fds, PipeRead);
                && rd == LowestFree(old(w).fds) && wr == LowestFree(t) && w.fds == Allocate(t, PipeWrite)
                && w.calls == old(w).calls + [PipeCall(Success)]
      ensures rd < 0 ==> w.fds == old(w).fds && 1 <= errno <= 4095
                         && w.calls == old(w).calls + [PipeCall(Failed(errno))]
    {
      hide Inv, Reaches, Later;
      Interfere();
      UnbornOnlyOpened(old(w), w);
      hide SameOwn;
      ghost var before := w;
      var works: bool := *;
      if works {
        var t := Allocate(w.fds, PipeRead);
        rd, wr, errno := LowestFree(w.fds), LowestFree(t), 0;
        w := w.(fds := Allocate(t, PipeWrite), calls := w.calls + [PipeCall(Success)]);
      } else {
        rd, wr := -1, -1;
        errno := AnyError();
        w := w.(calls := w.calls + [PipeCall(Failed(errno))]);
      }
      BookkeepingKeeps(before, w);
    }

    /** The child gets a copy of the descriptor table, starts in the supervisor's own group, and goes about
        its job. */
    method Fork(job: Job) returns (pid: int, errno: int)
      requires Inv(w) && !Born(w) && Pristine(w.child.entry) && w.fds == Wired(w.child.entry) && !w.grouped && w.taken == 0
      modifies this`w
      ensures Inv(w) && w.fds == old(w).fds && w.naps == old(w).naps && !w.grouped && w.taken == 0
      ensures old(w).now <= w.now && w.child.entry == old(w).child.entry
      ensures pid < 0 <==> !Born(w)
      ensures pid >= 0 ==> w.calls == old(w).calls + [ForkCall(Success)] && pid == w.tree.leader && pid > 0
                           && w.child.job == job && w.tree.fate.Uncollected?
      ensures pid < 0 ==> 1 <= errno <= 4095 && w.tree == old(w).tree && w.calls == old(w).calls + [ForkCall(Failed(errno))]
    {
      hide Inv, Reaches;
      Interfere();
      ghost var before := w;
      var works: bool, p: nat, home: nat := *, *, *;
      if works && p > 0 && p != home {
        pid, errno := p, 0;
        w := w.(calls := w.calls + [ForkCall(Success)]);
        BookkeepingKeeps(before, w);
        BirthKeeps(w, p, home, job);
        w := Birth(w, p, home, job);
      } else {
        pid := -1;
        errno := AnyError();
        w := w.(calls := w.calls + [ForkCall(Failed(errno))]);
        BookkeepingKeeps(before, w);
      }
    }

    /** close, of a descriptor that is open: closing any other number would be a mistake of the caller. */
    method Close(fd: Fd)
      requires Inv(w) && fd in w.fds
      modifies this`w
      ensures Inv(w) && Later(old(w), w) && SameOwn(old(w).(fds := Descriptors.Close(old(w).fds, fd)), w)
      ensures old(w).now <= w.now
      ensures !Born(old(w)) ==> OnlyOpened(old(w), w) && w.calls == old(w).calls && w.fds == Descriptors.Close(old(w).fds, fd)
    {
      hide Inv, Reaches, Later;
      w := w.(fds := Descriptors.Close(w.fds, fd));
      ghost var mid := w;
      BookkeepingKeeps(old(w), mid);
      Interfere();
      if !Born(mid) {
        UnbornOnlyOpened(mid, w);
      }
      LaterTransitive(old(w), mid, w);
      ClockGoesOn(old(w), w);
    }

    /** setpgid(pid, pid) by the supervisor: refused once the leader has executed its image. */
    method SetProcessGroup()
      requires Inv(w) && Born(w) && !w.grouped
      modifies this`w
      ensures Inv(w) && Later(old(w), w) && SameOwn(old(w).(grouped := true), w)
    {
      hide Inv, Reaches, Later;
      Interfere();
      ghost var mid := w;
      ParentGroupsKeeps(w);
      w := ParentGroups(w);
      LaterTransitive(old(w), mid, w);
    }

    /** Waits until the pipe holds something or has no writer left. */
    method AwaitReadable()
      requires Inv(w) && Born(w) && !Holds(w.fds, PipeWrite)
      modifies this`w
      ensures Inv(w) && Later(old(w), w) && SameOwn(old(w), w)
      ensures w.taken < |w.child.written| || !HasWriter(w)
    {
      hide Inv, Reaches, Later;
      Interfere();
      UncollectedIsThere(w);
      if w.taken == |w.child.written| && HasWriter(w) {
        hide HasWriter;
        ghost var mid := w;
        var schedule := [Elsewhere(Dies(w.tree.leader, SIGKILL, false)), StrangerReleases(w.strangers)];
        NoWriterAfter(w);
        RunKeeps(w, schedule);
        w := Run(w, schedule);
        LaterTransitive(old(w), mid, w);
      }
    }

    /** Moves some of what is in the pipe, but at least one byte, into the buffer. */
    method Take(buffer: array<byte>, offset: nat) returns (count: nat)
      requires Inv(w) && Born(w) && offset < buffer.Length && w.taken < |w.child.written|
      modifies this`w, buffer
      ensures Inv(w) && Later(old(w), w) && w == old(w).(taken := w.taken)
      ensures 0 < count <= buffer.Length - offset && w.taken == old(w).taken + count <= |w.child.written|
      ensures forall i :: 0 <= i < offset ==> buffer[i] == old(buffer[i])
      ensures forall i :: offset <= i < offset + count ==> buffer[i] == w.child.written[old(w).taken + i - offset]
    {
      hide Inv, Reaches, Later;
      var unread := |w.child.written| - w.taken;
      var n: nat := *;
      count := if 1 <= n <= unread then n else unread;
      count := if count <= buffer.Length - offset then count else buffer.Length - offset;
      forall i | offset <= i < offset + count {
        buffer[i] := w.child.written[w.taken + i - offset];
      }
      TakingKeeps(w, count);
      w := w.(taken := w.taken + count);
    }

    /** read(2) on the error pipe into `buffer` from `offset` on. */
    method Read(buffer: array<byte>, offset: nat) returns (count: int, errno: int)
      requires Inv(w) && Born(w) && !Holds(w.fds, PipeWrite) && offset < buffer.Length
      modifies this, buffer
      ensures Inv(w) && Later(old(w), w) && SameOwn(old(w).(taken := w.taken, calls := w.calls), w)
      ensures interrupts <= old(interrupts)
      ensures forall i :: 0 <= i < offset ==> buffer[i] == old(buffer[i])
      ensures count > 0 ==>
                && w.calls == old(w).calls && w.taken == old(w).taken + count <= |w.child.written|
                && offset + count <= buffer.Length
                && (forall i :: offset <= i < offset + count ==> buffer[i] == w.child.written[old(w).taken + i - offset])
      ensures count <= 0 ==> w.taken == old(w).taken
      ensures count == 0 ==> w.calls == old(w).calls && w.taken == |w.child.written| && !HasWriter(w)
      ensures count < 0 && errno == EINTR ==> w.calls == old(w).calls && interrupts < old(interrupts)
      ensures count < 0 && errno != EINTR ==> 1 <= errno <= 4095 && w.calls == old(w).calls + [ReadFailure(errno)]
    {
      hide Inv, Reaches, Later, HasWriter;
      var interrupted := Interrupted();
      var works: bool := *;
      errno := AnyError();
      if interrupted {
        errno := EINTR;
      }
      if interrupted || (!works && errno != EINTR) {
        Interfere();
        count := -1;
        if !interrupted {
          ghost var before := w;
          w := w.(calls := w.calls + [ReadFailure(errno)]);
          BookkeepingKeeps(before, w);
          LaterTransitive(old(w), before, w);
        }
      } else {
        AwaitReadable();
        UncollectedIsThere(w);
        count, errno := 0, 0;
        if w.taken < |w.child.written| {
          ghost var before := w;
          count := Take(buffer, offset);
          LaterTransitive(old(w), before, w);
        }
      }
    }

    /** Waits, without WNOHANG, until the leader is dead or gone. */
    method AwaitLeader(nohang: bool)
      requires Inv(w) && Born(w)
      modifies this`w
      ensures Inv(w) && Later(old(w), w) && SameOwn(old(w), w)
      ensures nohang || !w.tree.Runs(w.tree.leader)
    {
      hide Inv, Reaches, Later;
      Interfere();
      if !nohang && w.tree.Runs(w.tree.leader) {
        ghost var mid := w;
        var e := Elsewhere(Dies(w.tree.leader, SIGKILL, false));
        StepKeeps(w, e);
        w := Step(w, e);
        LaterTransitive(old(w), mid, w);
      }
    }

    /** waitpid on the leader. Without WNOHANG it returns only once there is a status or an error. */
    method Wait(nohang: bool) returns (waited: int, status: int, errno: int)
      requires Inv(w) && Born(w)
      modifies this
      ensures Inv(w) && Later(old(w), w) && interrupts <= old(interrupts)
      ensures SameOwn(old(w).(calls := w.calls, tree := old(w).tree.(fate := w.tree.fate)), w)
      ensures waited > 0 ==>
                && waited == w.tree.leader && errno == 0 && w.calls == old(w).calls
                && old(w).tree.fate.Uncollected? && w.tree.fate.Reaped? && status == StatusWord(w.tree.fate.status)
      ensures waited <= 0 ==> (w.tree.fate.Reaped? ==> w.tree.fate == old(w).tree.fate)
      ensures waited == 0 ==> nohang && w.calls == old(w).calls
      ensures waited < 0 && errno == EINTR ==> w.calls == old(w).calls && interrupts < old(interrupts)
      ensures waited < 0 && errno != EINTR ==> 1 <= errno <= 4095 && w.calls == old(w).calls + [WaitFailure(errno)]
    {
      hide Inv, Reaches;
      var interrupted := Interrupted();
      var works: bool := *;
      errno := AnyError();
      AwaitLeader(nohang);
      UncollectedIsThere(w);
      ghost var before := w;
      waited, status := -1, 0;
      if interrupted {
        errno := EINTR;
      } else if w.tree.leader in w.tree.procs && (works || errno == EINTR) {
        errno := 0;
        if w.tree.procs[w.tree.leader].life.Running? {
          waited := 0;
        } else {
          waited, status := w.tree.leader, StatusWord(w.tree.procs[w.tree.leader].life.status);
          CollectKeeps(w);
          w := w.(tree := CollectLeader(w.tree));
          LaterTransitive(old(w), before, w);
        }
      } else {
        errno := if w.tree.leader in w.tree.procs then errno else ECHILD;
        w := w.(calls := w.calls + [WaitFailure(errno)]);
        BookkeepingKeeps(before, w);
        LaterTransitive(old(w), before, w);
      }
    }

    /** What follows a signal: `sent` is the world right after it. */
    method AfterSignal(ghost seen: World, sig: Signal)
      requires Inv(seen) && Born(seen) && seen.grouped && (w == GroupKilled(seen, sig) || w == LeaderKilled(seen, sig))
      modifies this`w
      ensures Inv(w) && Later(seen, w) && Later(old(w), w) && Reaches(old(w), w) && SameOwn(old(w), w) && seen.now <= w.now
      ensures SameOwn(seen.(calls := old(w).calls), w)
    {
      hide Inv, Later, Reaches;
      SignallingKeeps(seen, w.tree, sig);
      BookkeepingKeeps(seen.(tree := w.tree), w);
      LaterTransitive(seen, seen.(tree := w.tree), w);
      ghost var sent := w;
      Interfere();
      LaterTransitive(seen, sent, w);
      ClockGoesOn(seen, w);
    }

    /** kill(-pid, sig). `seen`: the world it is made in, reached from the old one by others alone, as the
        new world is from the world right after the signal. */
    method KillGroup(sig: Signal) returns (answer: int, errno: int, ghost seen: World)
      requires Inv(w) && Born(w) && w.grouped
      modifies this`w
      ensures Inv(seen) && Later(old(w), seen) && SameOwn(old(w), seen) && Reaches(old(w), seen)
      ensures Reaches(GroupKilled(seen, sig), w)
      ensures if answer == 0 then GroupAnswer(seen.tree) == Success else 1 <= errno <= 4095 && GroupAnswer(seen.tree) == Failed(errno)
      ensures Inv(w) && Later(old(w), w) && Later(seen, w) && old(w).now <= seen.now <= w.now
      ensures SameOwn(old(w).(calls := old(w).calls + [GroupCall(seen, sig)]), w)
      ensures sig == SIGKILL ==> w.tree.Contained()
    {
      hide Inv, Later, Reaches;
      Interfere();
      seen := w;
      ClockGoesOn(old(w), seen);
      answer := if w.tree.SomePermitted() then 0 else -1;
      errno := if answer == 0 then 0 else if w.tree.GroupEmpty() then ESRCH else EPERM;
      KillContains(w.tree);
      w := w.(tree := if answer == 0 then SignalMembers(w.tree, sig) else w.tree, calls := w.calls + [GroupCall(w, sig)]);
      ghost var sent := w;
      AfterSignal(seen, sig);
      LaterTransitive(old(w), seen, w);
      LaterStaysContained(sent, w);
    }

    /** kill(pid, sig). */
    method KillLeader(sig: Signal) returns (answer: int, errno: int, ghost seen: World)
      requires Inv(w) && Born(w) && w.grouped
      modifies this`w
      ensures Inv(seen) && Later(old(w), seen) && SameOwn(old(w), seen) && Reaches(old(w), seen)
      ensures Reaches(LeaderKilled(seen, sig), w)
      ensures if answer == 0 then LeaderAnswer(seen.tree) == Success else 1 <= errno <= 4095 && LeaderAnswer(seen.tree) == Failed(errno)
      ensures Inv(w) && Later(old(w), w) && Later(seen, w) && old(w).now <= seen.now <= w.now
      ensures SameOwn(old(w).(calls := old(w).calls + [LeaderCall(seen, sig)]), w)
    {
      hide Inv, Later, Reaches;
      Interfere();
      seen := w;
      ClockGoesOn(old(w), seen);
      answer, errno := 0, 0;
      if w.tree.leader !in w.tree.procs {
        answer, errno := -1, ESRCH;
      } else if !w.tree.procs[w.tree.leader].permitted {
        answer, errno := -1, EPERM;
      }
      w := w.(tree := if answer == 0 then SignalLeader(w.tree, sig) else w.tree, calls := w.calls + [LeaderCall(w, sig)]);
      AfterSignal(seen, sig);
      LaterTransitive(old(w), seen, w);
    }

    /** kill(-pid, 0): only asks. */
    method ProbeGroup() returns (answer: int, errno: int)
      requires Inv(w) && Born(w)
      modifies this`w
      ensures Inv(w) && Later(old(w), w) && SameOwn(old(w), w)
      ensures answer == 0 <==> w.tree.SomePermitted()
      ensures answer != 0 ==> errno == if w.tree.GroupEmpty() then ESRCH else EPERM
    {
      hide Inv, Reaches, Later, SameOwn;
      Interfere();
      answer := if w.tree.SomePermitted() then 0 else -1;
      errno := if answer == 0 then 0 else if w.tree.GroupEmpty() then ESRCH else EPERM;
    }
  }

  lemma ClockGoesOn(a: World, b: World)
    requires Later(a, b)
    ensures a.now <= b.now
  {
  }
}
