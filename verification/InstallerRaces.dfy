/** Three runs in which nothing fails but at most a crash: one in which an installation that reported
    success is undone, one in which the final path is lost, and one in which an installer that was not
    asked to replace deletes what another has installed. */
module InstallerRaces {
  import opened Wrappers
  import opened Installer

  function Proceeds(p: Pid, n: nat): seq<Action> {
    if n == 0 then [] else [Proceed(p)] + Proceeds(p, n - 1)
  }

  lemma {:induction false} RunConcat(s: Store, a: seq<Action>, b: seq<Action>)
    ensures Run(s, a + b) == Run(Run(s, a), b)
    decreases |a|
  {
    if a == [] {
      assert a + b == b;
    } else {
      assert (a + b)[1..] == a[1..] + b;
      RunConcat(Step(s, a[0]), a[1..], b);
    }
  }

  lemma RunOne(s: Store, p: Pid, n: nat)
    requires n > 0 && p in s.phases && p in s.requests && !s.phases[p].Over?
    ensures Run(s, Proceeds(p, n)) == Run(Advance(s, p), Proceeds(p, n - 1))
  {
    assert Proceeds(p, n)[1..] == Proceeds(p, n - 1);
  }

  /** An installer about to begin, with a good archive and nothing in its way. */
  predicate Ready(s: Store, p: Pid) {
    p in s.phases && s.phases[p] == Begin && p in s.requests && s.requests[p].archiveHasShell
    && p !in s.backups && p !in s.staging
  }

  /** The store after the phase and the staging directory of one installer have changed. */
  function At(s: Store, p: Pid, ph: Phase, staging: map<Pid, Dir>): Store {
    s.(phases := s.phases[p := ph], staging := staging)
  }

  lemma OneStep(s: Store, p: Pid, ph: Phase, staging: map<Pid, Dir>, next: Store, n: nat)
    requires p in s.phases && p in s.requests && !ph.Over? && n > 0
    requires Advance(At(s, p, ph, staging), p) == next
    ensures Run(At(s, p, ph, staging), Proceeds(p, n)) == Run(next, Proceeds(p, n - 1))
  {
    RunOne(At(s, p, ph, staging), p, n);
  }

  lemma Overwrites(s: Store, p: Pid, ph: Phase, staging: map<Pid, Dir>, ph': Phase, d: Dir)
    ensures Enter(At(s, p, ph, staging), p, ph') == At(s, p, ph', staging)
    ensures staging[p := d][p := d] == staging[p := d]
  {
    assert s.phases[p := ph][p := ph'] == s.phases[p := ph'];
  }

  /** The first looks of an installer that replaces. */
  lemma FirstLooksAt(s: Store, p: Pid)
    requires p in s.phases && p in s.requests && s.final.Some? && s.requests[p].replace
    ensures Advance(At(s, p, Begin, s.staging), p) == At(s, p, SawFinal, s.staging)
    ensures Advance(At(s, p, SawFinal, s.staging), p) == At(s, p, Stage, s.staging)
  {
    assert s.phases[p := Begin][p := SawFinal] == s.phases[p := SawFinal];
    assert s.phases[p := SawFinal][p := Stage] == s.phases[p := Stage];
  }

  /** The second look, over something. */
  lemma LookAt(s: Store, p: Pid, staging: map<Pid, Dir>)
    requires p in s.phases && p in s.requests && s.final.Some?
    ensures Advance(At(s, p, CheckFinal, staging), p) == At(s, p, BackUp, staging)
  {
    assert s.phases[p := CheckFinal][p := BackUp] == s.phases[p := BackUp];
  }

  /** The first rename. */
  lemma MoveAt(s: Store, p: Pid, staging: map<Pid, Dir>)
    requires p in s.phases && p in s.requests && s.final.Some? && p !in s.backups
    ensures Advance(At(s, p, BackUp, staging), p) ==
              At(s.(backups := s.backups[p := s.final.value], final := None), p, Swap(true), staging)
  {
    assert s.phases[p := BackUp][p := Swap(true)] == s.phases[p := Swap(true)];
  }

  /** The second. */
  lemma SwapAt(s: Store, p: Pid, backedUp: bool, d: Dir)
    requires p in s.phases && p in s.requests && s.final.None? && p !in s.staging
    ensures Advance(At(s, p, Swap(backedUp), s.staging[p := d]), p) ==
              At(s.(final := Some(d), last := Some(d)), p, Clean(backedUp), s.staging)
  {
    assert s.phases[p := Swap(backedUp)][p := Clean(backedUp)] == s.phases[p := Clean(backedUp)];
    assert s.staging[p := d] - {p} == s.staging;
  }

  lemma CleanAt(s: Store, p: Pid)
    requires p in s.phases && p in s.requests && p in s.backups
    ensures Advance(At(s, p, Clean(true), s.staging), p) == At(s, p, Deleting, s.staging)
  {
    assert s.phases[p := Clean(true)][p := Deleting] == s.phases[p := Deleting];
  }

  lemma EndAt(s: Store, p: Pid, ph: Phase)
    requires p in s.phases && p in s.requests && p !in s.staging && (ph == Deleting || ph == Clean(false))
    ensures Advance(At(s, p, ph, s.staging), p) ==
              s.(phases := s.phases[p := Over(Installed)], backups := if ph.Deleting? then s.backups - {p} else s.backups)
  {
    assert s.phases[p := ph][p := Over(Installed)] == s.phases[p := Over(Installed)];
    assert s.staging - {p} == s.staging;
  }

  /** From staging to the second look at the final path. */
  lemma Stages(s: Store, p: Pid, n: nat)
    requires p in s.phases && p in s.requests && s.requests[p].archiveHasShell && n >= 3
    ensures Run(At(s, p, Stage, s.staging), Proceeds(p, n)) ==
              Run(At(s, p, CheckFinal, s.staging[p := Built(s.requests[p], p)]), Proceeds(p, n - 3))
  {
    var r := s.requests[p];
    var d1, d2 := Dir(Staged(p), Contents("", false, Absent, false)), Dir(Staged(p), Contents(r.digest, true, Absent, false));
    var m1, m2, m3 := s.staging[p := d1], s.staging[p := d2], s.staging[p := Built(r, p)];
    assert s.staging[p := d1][p := d2] == m2 && s.staging[p := d2][p := Built(r, p)] == m3;
    Overwrites(s, p, Stage, s.staging, Extract, d1);
    Overwrites(s, p, Extract, m1, Seal, d2);
    Overwrites(s, p, Seal, m2, CheckFinal, d2);
    hide Run, Proceeds;
    OneStep(s, p, Stage, s.staging, At(s, p, Extract, m1), n);
    OneStep(s, p, Extract, m1, At(s, p, Seal, m2), n - 1);
    OneStep(s, p, Seal, m2, At(s, p, CheckFinal, m3), n - 2);
  }

  /** From its beginning to its swap, over an existing environment: it is now in the backup. */
  lemma ReachesSwapOver(s: Store, p: Pid)
    requires Ready(s, p) && s.requests[p].replace && s.final.Some?
    ensures Run(s, Proceeds(p, 7)) ==
              At(s, p, Swap(true), s.staging[p := Built(s.requests[p], p)]).(backups := s.backups[p := s.final.value], final := None)
  {
    hide Advance, Built;
    var m := s.staging[p := Built(s.requests[p], p)];
    assert s.phases[p := Begin] == s.phases;
    assert s == At(s, p, Begin, s.staging);
    var after := At(s, p, Swap(true), m).(backups := s.backups[p := s.final.value], final := None);
    assert Run(after, Proceeds(p, 0)) == after;
    hide Run, Proceeds;
    FirstLooksAt(s, p);
    OneStep(s, p, Begin, s.staging, At(s, p, SawFinal, s.staging), 7);
    OneStep(s, p, SawFinal, s.staging, At(s, p, Stage, s.staging), 6);
    Stages(s, p, 5);
    LookAt(s, p, m);
    MoveAt(s, p, m);
    OneStep(s, p, CheckFinal, m, At(s, p, BackUp, m), 2);
    OneStep(s, p, BackUp, m, after, 1);
  }

  /** From its beginning to its end, when the final path is absent all the while. */
  lemma InstallsIntoGap(s: Store, p: Pid)
    requires Ready(s, p) && s.final.None?
    ensures var d := Some(Built(s.requests[p], p));
            Run(s, Proceeds(p, 7)) == s.(phases := s.phases[p := Over(Installed)], final := d, last := d)
  {
    hide Run, Proceeds, Advance;
    ReachesSwapIntoGap(s, p, 7);
    SwapsIntoGap(s, p);
  }

  lemma ReachesSwapIntoGap(s: Store, p: Pid, n: nat)
    requires Ready(s, p) && s.final.None? && n >= 5
    ensures Run(s, Proceeds(p, n)) == Run(At(s, p, Swap(false), s.staging[p := Built(s.requests[p], p)]), Proceeds(p, n - 5))
  {
    var b := Built(s.requests[p], p);
    var m := s.staging[p := b];
    assert s.phases[p := Begin] == s.phases;
    assert s == At(s, p, Begin, s.staging);
    Overwrites(s, p, Begin, s.staging, Stage, b);
    Overwrites(s, p, CheckFinal, m, Swap(false), b);
    hide Run, Proceeds;
    OneStep(s, p, Begin, s.staging, At(s, p, Stage, s.staging), n);
    Stages(s, p, n - 1);
    OneStep(s, p, CheckFinal, m, At(s, p, Swap(false), m), n - 4);
  }

  lemma SwapsIntoGap(s: Store, p: Pid)
    requires Ready(s, p) && s.final.None?
    ensures var d := Some(Built(s.requests[p], p));
            Run(At(s, p, Swap(false), s.staging[p := d.value]), Proceeds(p, 2))
            == s.(phases := s.phases[p := Over(Installed)], final := d, last := d)
  {
    hide Advance, Built;
    var b := Built(s.requests[p], p);
    var t := s.(final := Some(b), last := Some(b));
    var after := t.(phases := s.phases[p := Over(Installed)]);
    assert Run(after, Proceeds(p, 0)) == after;
    hide Run, Proceeds;
    SwapAt(s, p, false, b);
    EndAt(t, p, Clean(false));
    OneStep(s, p, Swap(false), s.staging[p := b], At(t, p, Clean(false), s.staging), 2);
    OneStep(t, p, Clean(false), s.staging, after, 1);
  }

  const REPLACE := Request("image", "1", "arm64", "/rootfs.tar", "new", true, true)
  const OLD := Dir(Original(OLD_CONTENTS), OLD_CONTENTS)
  const OLD_CONTENTS := Contents("old", true, Written(Provenance("image", "0", "arm64", "/old.tar", "old")), false)
  const NEW := Built(REPLACE, 2)
  const START := Store(Some(OLD), map[], map[], map[1 := Begin, 2 := Begin, 3 := Begin],
                       map[1 := REPLACE, 2 := REPLACE, 3 := REPLACE], Some(OLD))
  /** The first installer has moved the old environment away and is about to swap. */
  const MOVED := Store(None, map[1 := OLD], map[1 := Built(REPLACE, 1)], map[1 := Swap(true), 2 := Begin, 3 := Begin],
                       START.requests, Some(OLD))
  /** The second has found nothing at the final path and has installed. */
  const SUCCEEDED := MOVED.(phases := map[1 := Swap(true), 2 := Over(Installed), 3 := Begin], final := Some(NEW), last := Some(NEW))
  /** The first has found the path taken. */
  const REFUSED := SUCCEEDED.(phases := map[1 := Undo(true), 2 := Over(Installed), 3 := Begin])
  /** The third has moved the new environment away. */
  const REMOVED := REFUSED.(phases := map[1 := Undo(true), 2 := Over(Installed), 3 := Swap(true)],
                            backups := map[1 := OLD, 3 := NEW],
                            staging := map[1 := Built(REPLACE, 1), 3 := Built(REPLACE, 3)], final := None)

  lemma FirstMoves()
    ensures Run(START, Proceeds(1, 7)) == MOVED
  {
    hide Run, Proceeds, Advance;
    ReachesSwapOver(START, 1);
    assert START.phases[1 := Swap(true)] == MOVED.phases;
  }

  /** Stopped between its two renames, an installer leaves a complete environment in its backup alone,
      and nothing at the final path: activation is not atomic. */
  lemma CrashLosesFinal()
    ensures START.final.Some? && START.final.value.Complete()
    ensures var v := Run(START, Proceeds(1, 7) + [Crash(1)]);
            v.final.None? && 1 in v.phases && v.phases[1] == Over(Crashed) && v.backups == map[1 := START.final.value]
  {
    hide Run, Proceeds, Advance;
    FirstMoves();
    RunConcat(START, Proceeds(1, 7), [Crash(1)]);
    RunCrash(MOVED, 1);
  }

  lemma RunCrash(s: Store, p: Pid)
    ensures Run(s, [Crash(p)]) == Step(s, Crash(p))
  {
    hide Step;
    assert [Crash(p)][1..] == [];
    assert Run(Step(s, Crash(p)), []) == Step(s, Crash(p));
  }

  lemma SecondInstalls()
    ensures Run(MOVED, Proceeds(2, 7)) == SUCCEEDED
  {
    hide Run, Proceeds, Advance;
    InstallsIntoGap(MOVED, 2);
    assert MOVED.phases[2 := Over(Installed)] == SUCCEEDED.phases;
  }

  lemma FirstIsRefused()
    ensures Run(SUCCEEDED, [Proceed(1)]) == REFUSED
  {
    RunSingle(SUCCEEDED, 1);
    hide Run;
    assert SUCCEEDED.phases[1 := Undo(true)] == REFUSED.phases;
  }

  lemma ThirdMoves()
    ensures Run(REFUSED, Proceeds(3, 7)) == REMOVED
  {
    hide Run, Proceeds, Advance;
    ReachesSwapOver(REFUSED, 3);
    assert REFUSED.phases[3 := Swap(true)] == REMOVED.phases;
    assert REFUSED.staging[3 := Built(REPLACE, 3)] == REMOVED.staging;
    assert REFUSED.backups[3 := NEW] == REMOVED.backups;
  }

  /** Five runs, one after another. */
  lemma RunChain(s: seq<Store>, a: seq<seq<Action>>)
    requires |s| == 6 && |a| == 5 && forall i | 0 <= i < 5 :: Run(s[i], a[i]) == s[i + 1]
    ensures Run(s[0], a[0] + (a[1] + (a[2] + (a[3] + a[4])))) == s[5]
  {
    hide Run;
    RunConcat(s[0], a[0], a[1] + (a[2] + (a[3] + a[4])));
    RunConcat(s[1], a[1], a[2] + (a[3] + a[4]));
    RunConcat(s[2], a[2], a[3] + a[4]);
    RunConcat(s[3], a[3], a[4]);
  }

  /** The first puts the old environment back; the third finds the path taken and gives up. */
  lemma LastMove() returns (v: Store)
    ensures v == Run(REMOVED, [Proceed(1), Proceed(1)] + [Proceed(3), Proceed(3)])
    ensures v.phases == map[1 := Over(Raised), 2 := Over(Installed), 3 := Over(Raised)]
    ensures v.final == START.final && v.last == Some(NEW) && v.backups == map[3 := NEW]
  {
    hide Run, Advance, Built;
    var s5, s6 := LastMoves(REMOVED, OLD, NEW);
    RunConcat(REMOVED, [Proceed(1), Proceed(1)], [Proceed(3), Proceed(3)]);
    v := s6;
    assert REMOVED.phases[1 := Over(Raised)][3 := Over(Raised)] == map[1 := Over(Raised), 2 := Over(Installed), 3 := Over(Raised)];
  }

  lemma StartIsInitial()
    ensures Initial(START)
  {
  }

  function Interleaving(): seq<Action> {
    Proceeds(1, 7) + (Proceeds(2, 7) + ([Proceed(1)] + (Proceeds(3, 7) + ([Proceed(1), Proceed(1)] + [Proceed(3), Proceed(3)]))))
  }

  lemma NothingFails()
    ensures forall a :: a in Interleaving() ==> a.Proceed?
  {
    OnlyProceeds(1, 7);
    OnlyProceeds(2, 7);
    OnlyProceeds(3, 7);
    hide Proceeds;
  }

  /** No operation fails and nobody crashes, the second installer reports success, and when all three
      are done the final path holds the environment from before any of them; the installed one is
      only in the third installer's backup. */
  lemma SuccessCanBeUndone()
    ensures Initial(START) && (forall a :: a in Interleaving() ==> a.Proceed?)
    ensures var v := Run(START, Interleaving());
            && v.phases == map[1 := Over(Raised), 2 := Over(Installed), 3 := Over(Raised)]
            && v.final == START.final && v.last == Some(NEW) && v.backups == map[3 := NEW]
  {
    StartIsInitial();
    NothingFails();
    hide Run, Proceeds, Advance, Built, Initial;
    FirstMoves();
    SecondInstalls();
    FirstIsRefused();
    ThirdMoves();
    var v := LastMove();
    RunChain([START, MOVED, SUCCEEDED, REFUSED, REMOVED, v],
             [Proceeds(1, 7), Proceeds(2, 7), [Proceed(1)], Proceeds(3, 7), [Proceed(1), Proceed(1)] + [Proceed(3), Proceed(3)]]);
  }

  // ---- an installer that was not asked to replace --------------------------------------------

  const KEEP := REPLACE.(replace := false)
  const EMPTY := Store(None, map[], map[], map[1 := Begin, 2 := Begin], map[1 := KEEP, 2 := KEEP], None)
  /** The second installer has looked and found nothing. */
  const LOOKED := EMPTY.(phases := map[1 := Begin, 2 := Stage])
  /** The first has installed. */
  const FILLED := LOOKED.(phases := map[1 := Over(Installed), 2 := Stage], final := Some(Built(KEEP, 1)), last := Some(Built(KEEP, 1)))
  const DELETED := FILLED.(phases := map[1 := Over(Installed), 2 := Over(Installed)],
                           final := Some(Built(KEEP, 2)), last := Some(Built(KEEP, 2)))

  /** From its second look, at something that was not there at its first, to its end. */
  lemma InstallsOver(s: Store, p: Pid)
    requires p in s.phases && s.phases[p] == Stage && p in s.requests && s.requests[p].archiveHasShell
    requires p !in s.backups && p !in s.staging && s.final.Some?
    ensures var d := Some(Built(s.requests[p], p));
            Run(s, Proceeds(p, 8)) == s.(phases := s.phases[p := Over(Installed)], final := d, last := d)
  {
    hide Run, Proceeds, Advance;
    MovesOver(s, p);
    SwapsOver(s, p);
  }

  lemma MovesOver(s: Store, p: Pid)
    requires p in s.phases && s.phases[p] == Stage && p in s.requests && s.requests[p].archiveHasShell
    requires p !in s.backups && p !in s.staging && s.final.Some?
    ensures var m := s.staging[p := Built(s.requests[p], p)];
            Run(s, Proceeds(p, 8)) ==
              Run(At(s, p, Swap(true), m).(backups := s.backups[p := s.final.value], final := None), Proceeds(p, 3))
  {
    hide Advance, Built, Run, Proceeds;
    var m := s.staging[p := Built(s.requests[p], p)];
    assert s.phases[p := Stage] == s.phases;
    assert s == At(s, p, Stage, s.staging);
    Stages(s, p, 8);
    LookAt(s, p, m);
    MoveAt(s, p, m);
    OneStep(s, p, CheckFinal, m, At(s, p, BackUp, m), 5);
    OneStep(s, p, BackUp, m, At(s, p, Swap(true), m).(backups := s.backups[p := s.final.value], final := None), 4);
  }

  lemma SwapsOver(s: Store, p: Pid)
    requires p in s.phases && p in s.requests && p !in s.backups && p !in s.staging && s.final.Some?
    ensures var d := Some(Built(s.requests[p], p));
            Run(At(s, p, Swap(true), s.staging[p := d.value]).(backups := s.backups[p := s.final.value], final := None), Proceeds(p, 3))
            == s.(phases := s.phases[p := Over(Installed)], final := d, last := d)
  {
    hide Advance, Built;
    var b := Built(s.requests[p], p);
    var gap := s.(backups := s.backups[p := s.final.value], final := None);
    var full := gap.(final := Some(b), last := Some(b));
    assert full.backups - {p} == s.backups;
    var after := s.(phases := s.phases[p := Over(Installed)], final := Some(b), last := Some(b));
    assert Run(after, Proceeds(p, 0)) == after;
    hide Run, Proceeds;
    SwapAt(gap, p, true, b);
    CleanAt(full, p);
    EndAt(full, p, Deleting);
    OneStep(gap, p, Swap(true), s.staging[p := b], At(full, p, Clean(true), s.staging), 3);
    OneStep(full, p, Clean(true), s.staging, At(full, p, Deleting, s.staging), 2);
    OneStep(full, p, Deleting, s.staging, after, 1);
  }

  lemma EmptyIsInitial()
    ensures Initial(EMPTY)
  {
  }

  function LateComer(): seq<Action> {
    [Proceed(2)] + (Proceeds(1, 7) + Proceeds(2, 8))
  }

  /** Two installers, neither asked to replace, both reporting success and nothing failing: the second
      takes away and deletes what the first has installed. */
  lemma DeletedWithoutReplace()
    ensures Initial(EMPTY) && (forall a :: a in LateComer() ==> a.Proceed?)
    ensures forall p :: p in EMPTY.requests ==> !EMPTY.requests[p].replace
    ensures Run(EMPTY, [Proceed(2)] + Proceeds(1, 7)).final == Some(Built(KEEP, 1))
    ensures var v := Run(EMPTY, LateComer());
            && v.phases == map[1 := Over(Installed), 2 := Over(Installed)]
            && v.final == Some(Built(KEEP, 2)) && v.backups == map[]
  {
    hide Run, Proceeds, Advance, Built, Initial;
    EmptyIsInitial();
    LateComerProceeds();
    LooksFirst();
    FillsTheGap();
    Deletes();
    RunConcat(EMPTY, [Proceed(2)], Proceeds(1, 7));
    RunConcat(EMPTY, [Proceed(2)], Proceeds(1, 7) + Proceeds(2, 8));
    RunConcat(LOOKED, Proceeds(1, 7), Proceeds(2, 8));
  }

  lemma LateComerProceeds()
    ensures forall a :: a in LateComer() ==> a.Proceed?
  {
    OnlyProceeds(1, 7);
    OnlyProceeds(2, 8);
    hide Proceeds;
  }

  lemma LooksFirst()
    ensures Run(EMPTY, [Proceed(2)]) == LOOKED
  {
    RunSingle(EMPTY, 2);
    hide Run;
    assert EMPTY.phases[2 := Stage] == LOOKED.phases;
  }

  lemma FillsTheGap()
    ensures Run(LOOKED, Proceeds(1, 7)) == FILLED
  {
    hide Run, Proceeds, Advance;
    InstallsIntoGap(LOOKED, 1);
    assert LOOKED.phases[1 := Over(Installed)] == FILLED.phases;
  }

  lemma Deletes()
    ensures Run(FILLED, Proceeds(2, 8)) == DELETED
  {
    hide Run, Proceeds, Advance;
    InstallsOver(FILLED, 2);
    assert FILLED.phases[2 := Over(Installed)] == DELETED.phases;
  }

  lemma LastMoves(s: Store, first: Dir, d: Dir) returns (s5: Store, s6: Store)
    requires s.final.None? && !first.contents.bare && 1 in s.phases && 3 in s.phases && 1 in s.requests && 3 in s.requests
    requires s.phases[1] == Undo(true) && s.phases[3] == Swap(true) && s.backups == map[1 := first, 3 := d]
    ensures s5 == Run(s, [Proceed(1), Proceed(1)]) && s6 == Run(s5, [Proceed(3), Proceed(3)])
    ensures s6.final == Some(first) && s6.last == s.last && s6.backups == map[3 := d]
    ensures s6.phases == s.phases[1 := Over(Raised)][3 := Over(Raised)]
  {
    RunPair(s, 1);
    s5 := Advance(Advance(s, 1), 1);
    assert s5.final == Some(first) && s5.backups == map[3 := d];
    RunPair(s5, 3);
    s6 := Advance(Advance(s5, 3), 3);
    assert s6.phases == s.phases[1 := Over(Raised)][3 := Over(Raised)];
  }

  lemma RunSingle(s: Store, p: Pid)
    requires p in s.phases && p in s.requests && !s.phases[p].Over?
    ensures Run(s, [Proceed(p)]) == Advance(s, p)
  {
    assert [Proceed(p)][1..] == [];
    assert Run(Advance(s, p), []) == Advance(s, p);
  }

  lemma RunPair(s: Store, p: Pid)
    requires p in s.phases && p in s.requests && !s.phases[p].Over?
    requires p in Advance(s, p).phases && p in Advance(s, p).requests && !Advance(s, p).phases[p].Over?
    ensures Run(s, [Proceed(p), Proceed(p)]) == Advance(Advance(s, p), p)
  {
    assert [Proceed(p), Proceed(p)] == [Proceed(p)] + [Proceed(p)];
    RunConcat(s, [Proceed(p)], [Proceed(p)]);
    RunSingle(s, p);
    RunSingle(Advance(s, p), p);
  }

  lemma {:induction false} OnlyProceeds(p: Pid, n: nat)
    ensures forall a :: a in Proceeds(p, n) ==> a.Proceed?
  {
    if n > 0 {
      OnlyProceeds(p, n - 1);
    }
  }
}
