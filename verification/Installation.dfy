/** install_rootfs itself: the operations of one installer in the order the program makes them, with
    any number of other installers at work between any two of them. */
module Installation {
  import opened Wrappers
  import opened Installer

  // ---- what the others leave alone -----------------------------------------------------------

  lemma {:induction false} OthersLeaveAlone(s: Store, actions: seq<Action>, p: Pid)
    requires forall a :: a in actions ==> a.p != p
    ensures OthersMoved(s, Run(s, actions), p)
    decreases |actions|
  {
    hide Step;
    if actions != [] {
      OtherStepLeavesAlone(s, actions[0], p);
      OthersLeaveAlone(Step(s, actions[0]), actions[1..], p);
    }
  }

  // ---- one installer by itself ---------------------------------------------------------------

  /** What a lone installer has done to the shared paths by the time it is at a phase. */
  ghost predicate Shape(o: Store, final: Option<Dir>, backups: map<Pid, Dir>, p: Pid, ph: Phase)
    requires p in o.requests
  {
    if HoldsBackup(ph) then o.final.Some? && final.None? && backups == o.backups[p := o.final.value]
    else if ph.Swap? || ph.Undo? then o.final.None? && final.None? && backups == o.backups
    else if ph.Clean? || ph.Deleting? then
      && final == Some(Built(o.requests[p], p)) && backups - {p} == o.backups - {p}
      && (ph.Clean? && ph.backedUp ==> o.final.Some? && p in backups && backups[p] == o.final.value)
      && (ph.Clean? && !ph.backedUp ==> o.final.None? && backups == o.backups)
      && (ph.Deleting? ==> o.final.Some?)
    else final == o.final && backups == o.backups
  }

  /** How a lone installer that is done has left the shared paths. */
  ghost predicate Ended(o: Store, final: Option<Dir>, backups: map<Pid, Dir>, p: Pid, end: End)
    requires p in o.requests
  {
    var r := o.requests[p];
    match end
    case Installed =>
      && final == Some(Built(r, p)) && backups - {p} == o.backups - {p}
      && (o.final.Some? ==> p !in backups && r.replace) && (o.final.None? ==> backups == o.backups)
    case AlreadyInstalled =>
      final == o.final && backups == o.backups && final.Some? && !r.replace && r.Matches(final.value.contents.manifest)
    case Conflict =>
      && final == o.final && backups == o.backups && final.Some? && !r.replace
      && !r.Matches(final.value.contents.manifest) && !final.value.contents.manifest.Garbled?
    case Raised => Whole(o, final, backups, p)
    case Crashed => Whole(o, final, backups, p)
  }

  /** The old environment is whole at the final path or at the backup path, or the new one is complete
      at the final path; the backups of others are untouched. */
  ghost predicate Whole(o: Store, final: Option<Dir>, backups: map<Pid, Dir>, p: Pid)
    requires p in o.requests
  {
    && (final == o.final || (o.final.Some? && final.None? && p in backups && backups[p] == o.final.value)
        || final == Some(Built(o.requests[p], p)))
    && backups - {p} == o.backups - {p}
  }

  /** `o`: the store when the lone installer began. Past the first checks it replaces, or nothing was there. */
  ghost predicate Alone(o: Store, s: Store, p: Pid) {
    && p in s.phases && p in o.requests && s.requests == o.requests
    && (if s.phases[p].Over? then Ended(o, s.final, s.backups, p, s.phases[p].end)
        else Shape(o, s.final, s.backups, p, s.phases[p]))
    && (s.phases[p].SawManifest? ==> o.final.Some? && !o.requests[p].replace)
    && (s.phases[p].SawFinal? ==> o.final.Some?)
    && (!s.phases[p].Over? && !s.phases[p].Begin? && !s.phases[p].SawFinal? && !s.phases[p].SawManifest? ==>
          o.final.None? || o.requests[p].replace)
    && (HasSealed(s.phases[p]) ==> p in s.staging && s.staging[p] == Built(o.requests[p], p))
  }

  lemma LeavingIsWhole(o: Store, s: Store, p: Pid, end: End)
    requires Alone(o, s, p) && !s.phases[p].Over? && (end.Raised? || end.Crashed?)
    ensures Alone(o, Enter(s, p, Over(end)), p) && Alone(o, Leave(s, p, end), p)
  {
    assert Whole(o, s.final, s.backups, p);
  }

  lemma ProceedsAlone(o: Store, s: Store, p: Pid)
    requires Alone(o, s, p) && !s.phases[p].Over?
    ensures Alone(o, Advance(s, p), p)
  {
    LeavingIsWhole(o, s, p, Raised);
    assert p in s.phases && p in s.requests;
    var ph := s.phases[p];
    hide Alone, Advance;
    if ph.Begin? || ph.SawFinal? || ph.SawManifest? {
      AsksAlone(o, s, p);
    } else if ph.Stage? || ph.Extract? || ph.Seal? || ph.CheckFinal? {
      BuildsAlone(o, s, p);
    } else if ph.BackUp? || ph.Swap? {
      SwapsAlone(o, s, p);
    } else {
      FinishesAlone(o, s, p);
    }
  }

  lemma AsksAlone(o: Store, s: Store, p: Pid)
    requires Alone(o, s, p) && (s.phases[p].Begin? || s.phases[p].SawFinal? || s.phases[p].SawManifest?)
    ensures Alone(o, Advance(s, p), p)
  {
    hide Dir.Complete, Request.Stamp;
  }

  lemma BuildsAlone(o: Store, s: Store, p: Pid)
    requires Alone(o, s, p) && Alone(o, Leave(s, p, Raised), p)
    requires s.phases[p].Stage? || s.phases[p].Extract? || s.phases[p].Seal? || s.phases[p].CheckFinal?
    ensures Alone(o, Advance(s, p), p)
  {
    hide Dir.Complete, Request.Matches, Request.Stamp;
  }

  lemma SwapsAlone(o: Store, s: Store, p: Pid)
    requires Alone(o, s, p) && Alone(o, Leave(s, p, Raised), p) && (s.phases[p].BackUp? || s.phases[p].Swap?)
    ensures Alone(o, Advance(s, p), p)
  {
    hide Request.Matches, Dir.Complete;
  }

  lemma FinishesAlone(o: Store, s: Store, p: Pid)
    requires Alone(o, s, p) && Alone(o, Leave(s, p, Raised), p)
    requires s.phases[p].Undo? || s.phases[p].Restore? || s.phases[p].Clean? || s.phases[p].Deleting?
    ensures Alone(o, Advance(s, p), p)
  {
    hide Request.Matches;
  }

  lemma StepsAlone(o: Store, s: Store, a: Action)
    requires Alone(o, s, a.p)
    ensures Alone(o, Step(s, a), a.p)
  {
    if !s.phases[a.p].Over? {
      LeavingIsWhole(o, s, a.p, Raised);
      LeavingIsWhole(o, s, a.p, Crashed);
      ProceedsAlone(o, s, a.p);
      hide Advance, Ended, Whole, Request.Matches;
    }
  }

  lemma {:induction false} RunsAlone(o: Store, s: Store, actions: seq<Action>, p: Pid)
    requires Alone(o, s, p) && forall a :: a in actions ==> a.p == p
    ensures Alone(o, Run(s, actions), p)
    decreases |actions|
  {
    hide Alone, Step;
    if actions != [] {
      StepsAlone(o, s, actions[0]);
      RunsAlone(o, Step(s, actions[0]), actions[1..], p);
    }
  }

  /** A single installer, stopped anywhere: the old environment is whole at the final path or at the
      backup path, or the new one is complete at the final path; nobody else's backup is touched. */
  lemma StoppedAnywhere(o: Store, actions: seq<Action>, p: Pid)
    requires p in o.phases && p in o.requests && o.phases[p] == Begin && forall a :: a in actions ==> a.p == p
    ensures var v := Run(o, actions);
            && (v.final == o.final || (o.final.Some? && v.final.None? && p in v.backups && v.backups[p] == o.final.value)
                || (v.final == Some(Built(o.requests[p], p)) && v.final.value.Complete()))
            && v.backups - {p} == o.backups - {p}
  {
    RunsAlone(o, o, actions, p);
    hide Run;
  }

  /** Activation is two renames. A single installer that is still at work leaves nothing at the final
      path exactly before it has installed where nothing was, and between its two renames or while it
      is rolling them back; if it is stopped there for good, that is what remains. */
  lemma GapExactly(o: Store, actions: seq<Action>, p: Pid)
    requires p in o.phases && p in o.requests && o.phases[p] == Begin && forall a :: a in actions ==> a.p == p
    ensures var v := Run(o, actions);
            && p in v.phases
            && (!v.phases[p].Over? ==>
                  && (v.final.None? <==> HoldsBackup(v.phases[p]) || (o.final.None? && !v.phases[p].Clean? && !v.phases[p].Deleting?))
                  && Step(v, Crash(p)).final == v.final && Step(v, Crash(p)).phases[p] == Over(Crashed))
  {
    RunsAlone(o, o, actions, p);
    hide Run, Advance;
  }

  // ---- installing twice ----------------------------------------------------------------------

  /** A directory holds a usable environment whose manifest says what a request asked for. */
  predicate Holds(d: Option<Dir>, r: Request) {
    && d.Some? && d.value.contents.shell && !d.value.contents.bare && d.value.contents.archive == r.digest
    && d.value.contents.manifest.Written?
    && var m := d.value.contents.manifest.provenance;
       m.image == r.image && m.version == r.version && m.arch == r.arch && m.source == r.source && m.sha256 == r.digest
  }

  /** Two requests ask for the same environment: where their archives lie does not matter. */
  predicate SameEnvironment(r: Request, q: Request) {
    r.image == q.image && r.version == q.version && r.arch == q.arch && r.digest == q.digest
  }

  /** How an installer compares itself with what another left: still at it, or its answer, or stopped. */
  predicate Compares(r: Request, q: Request, ph: Phase) {
    || ph.Begin? || ph.SawFinal? || ph.SawManifest?
    || ph == Over(if SameEnvironment(r, q) then AlreadyInstalled else Conflict)
    || ph == Over(Raised) || ph == Over(Crashed)
  }

  lemma ComparingStep(s: Store, a: Action, r: Request)
    requires a.p in s.phases && a.p in s.requests && !s.requests[a.p].replace
    requires Holds(s.final, r) && Compares(r, s.requests[a.p], s.phases[a.p])
    ensures var v := Step(s, a);
            && SamePaths(s, v) && v.requests == s.requests && a.p in v.phases
            && Compares(r, s.requests[a.p], v.phases[a.p])
            && (a.Proceed? || a.Delete? ==> !s.phases[a.p].Over? ==> v.phases[a.p] != Over(Raised) && v.phases[a.p] != Over(Crashed))
            && (s.phases[a.p].Over? ==> v == s)
            && (a.Proceed? && !s.phases[a.p].Over? ==>
                  v.phases[a.p].Over? || (s.phases[a.p].Begin? && v.phases[a.p].SawFinal?)
                  || (s.phases[a.p].SawFinal? && v.phases[a.p].SawManifest?))
  {
  }

  /** A call that finds an environment and was not asked to replace it changes nothing, whatever happens
      to it; unless an operation fails it answers that the environment is installed already exactly when
      it asks for the same one, and reports a conflict otherwise. */
  lemma {:induction false} Comparing(s: Store, actions: seq<Action>, q: Pid, r: Request)
    requires q in s.phases && q in s.requests && !s.requests[q].replace
    requires Holds(s.final, r) && Compares(r, s.requests[q], s.phases[q])
    requires forall a :: a in actions ==> a.p == q
    ensures var v := Run(s, actions);
            && SamePaths(s, v) && q in v.phases && Compares(r, s.requests[q], v.phases[q])
            && ((forall a :: a in actions ==> !a.Fail? && !a.Crash?) && s.phases[q] != Over(Raised) && s.phases[q] != Over(Crashed) ==>
                  v.phases[q] != Over(Raised) && v.phases[q] != Over(Crashed))
    decreases |actions|
  {
    hide Step, Compares, Holds;
    if actions != [] {
      ComparingStep(s, actions[0], r);
      Comparing(Step(s, actions[0]), actions[1..], q, r);
    }
  }

  /** A lone installation that ends well leaves at the final path what it was asked for. */
  lemma InstalledHolds(o: Store, actions: seq<Action>, p: Pid)
    requires p in o.phases && p in o.requests && o.phases[p] == Begin && forall a :: a in actions ==> a.p == p
    ensures var v := Run(o, actions);
            p in v.phases && v.requests == o.requests && (v.phases[p] == Over(Installed) ==> Holds(v.final, o.requests[p]))
  {
    RunsAlone(o, o, actions, p);
    hide Run;
  }

  /** Its three looks, none of which fails, are enough. */
  lemma ComparingEnds(s: Store, q: Pid, r: Request)
    requires q in s.phases && q in s.requests && !s.requests[q].replace && s.phases[q] == Begin && Holds(s.final, r)
    ensures var w := Run(s, [Proceed(q), Proceed(q), Proceed(q)]);
            q in w.phases && w.phases[q] == Over(if SameEnvironment(r, s.requests[q]) then AlreadyInstalled else Conflict)
  {
    var a := Proceed(q);
    var s1 := Step(s, a);
    var s2 := Step(s1, a);
    ComparingStep(s, a, r);
    ComparingStep(s1, a, r);
    ComparingStep(s2, a, r);
    hide Step, Holds, SameEnvironment;
    assert [a, a, a][1..] == [a, a] && [a, a][1..] == [a] && [a][1..] == [];
    var w := Step(s2, a);
    assert Run(w, []) == w;
    assert Run(s2, [a]) == Run(w, []);
    assert Run(s1, [a, a]) == Run(s2, [a]);
    assert Run(s, [a, a, a]) == Run(s1, [a, a]);
  }

  /** Installing twice. After a lone installation that ended well, a second lone call that was not asked to
      replace leaves everything as it is. When no operation of it fails and it has come to an end, it ends
      as already installed exactly when both asked for the same image, version, architecture and digest,
      and in a conflict otherwise. */
  lemma InstallingTwice(o: Store, first: seq<Action>, p: Pid, second: seq<Action>, q: Pid)
    requires p in o.phases && p in o.requests && o.phases[p] == Begin && forall a :: a in first ==> a.p == p
    requires q in o.phases && q in o.requests && o.phases[q] == Begin && forall a :: a in second ==> a.p == q
    requires p != q && p in Run(o, first).phases && Run(o, first).phases[p] == Over(Installed) && !o.requests[q].replace
    ensures var r, again, v := o.requests[p], o.requests[q], Run(o, first);
            var w := Run(v, second);
            && w.final == v.final && w.backups == v.backups && q in w.phases
            && ((forall a :: a in second ==> !a.Fail? && !a.Crash?) && w.phases[q].Over? ==>
                  w.phases[q].end == if again.image == r.image && again.version == r.version && again.arch == r.arch && again.digest == r.digest
                                     then AlreadyInstalled else Conflict)
            && (second == [Proceed(q), Proceed(q), Proceed(q)] ==> w.phases[q].Over?)
  {
    InstalledHolds(o, first, p);
    OthersLeaveAlone(o, first, q);
    hide Run, Holds;
    Comparing(Run(o, first), second, q, o.requests[p]);
    ComparingEnds(Run(o, first), q, o.requests[p]);
  }

  // ---- the program ---------------------------------------------------------------------------

  /** After a turn of `p`, whoever else has moved: `o` is the store it began with, if it runs alone. */
  ghost predicate Turn(o: Store, a: Store, b: Store, p: Pid, alone: bool) {
    && Inv(b) && p in b.phases && p in b.requests && b.requests == a.requests && (a.last.Some? ==> b.last.Some?)
    && (alone ==> Alone(o, b, p))
  }

  predicate SamePaths(a: Store, b: Store) {
    a.final == b.final && a.backups == b.backups
  }

  lemma StepIsTurn(o: Store, a: Store, b: Store, p: Pid, alone: bool, act: Action)
    requires Inv(a) && p in a.phases && act.p == p && b == Step(a, act) && (alone ==> Alone(o, a, p))
    ensures Turn(o, a, b, p, alone)
  {
    InvFacts(a, p);
    StepFrame(a, act);
    hide Inv, Alone, Step;
    StepKeepsInv(a, act);
    if alone {
      StepsAlone(o, a, act);
    }
  }

  lemma StepFrame(a: Store, act: Action)
    requires act.p in a.phases
    ensures var b := Step(a, act); act.p in b.phases && b.requests == a.requests && (a.last.Some? ==> b.last.Some?)
  {
    if act.p in a.requests {
      AdvanceFrame(a, act.p);
    }
    hide Advance;
  }

  lemma AdvanceFrame(a: Store, p: Pid)
    requires p in a.phases && p in a.requests
    ensures var b := Advance(a, p); p in b.phases && b.requests == a.requests && (a.last.Some? ==> b.last.Some?)
  {
    hide Advance;
    if Moves(a.phases[p]) {
      MoveFrame(a, p);
    } else {
      LookFrame(a, p);
    }
  }

  lemma MoveFrame(a: Store, p: Pid)
    requires p in a.phases && p in a.requests && Moves(a.phases[p])
    ensures var b := Advance(a, p); p in b.phases && b.requests == a.requests && (a.last.Some? ==> b.last.Some?)
  {
    hide Request.Matches, Request.Stamp, Built, Free, FreeBackup;
  }

  lemma LookFrame(a: Store, p: Pid)
    requires p in a.phases && p in a.requests && !Moves(a.phases[p])
    ensures var b := Advance(a, p); p in b.phases && b.requests == a.requests && (a.last.Some? ==> b.last.Some?)
  {
    if a.phases[p].Begin? || a.phases[p].SawFinal? || a.phases[p].SawManifest? {
      AskFrame(a, p);
      hide Advance;
    } else {
      hide Request.Matches, Request.Stamp, Built, Free, FreeBackup;
    }
  }

  lemma AskFrame(a: Store, p: Pid)
    requires p in a.phases && p in a.requests && (a.phases[p].Begin? || a.phases[p].SawFinal? || a.phases[p].SawManifest?)
    ensures var b := Advance(a, p); p in b.phases && b.requests == a.requests && (a.last.Some? ==> b.last.Some?)
  {
    hide Request.Matches;
  }

  // ---- the three renames, as steps of the protocol -------------------------------------------

  /** The store after the first rename: what was at the final path is the installer's backup. */
  function MovedAway(s: Store, p: Pid): Store
    requires s.final.Some?
  {
    Enter(s, p, Swap(true)).(backups := s.backups[p := s.final.value], final := None)
  }

  /** After the second: what was staged is at the final path and is the latest installation. */
  function SwappedIn(s: Store, p: Pid, backedUp: bool): Store
    requires p in s.staging
  {
    Enter(s, p, Clean(backedUp)).(final := Some(s.staging[p]), last := Some(s.staging[p]), staging := s.staging - {p})
  }

  /** After the rollback: the backup is at the final path again. */
  function HasPutBack(s: Store, p: Pid): Store
    requires p in s.backups
  {
    Leave(s, p, Raised).(final := Some(s.backups[p]), backups := s.backups - {p})
  }

  lemma MovingAwaySteps(s: Store, p: Pid)
    requires p in s.phases && p in s.requests && s.phases[p] == BackUp
    ensures Step(s, Fail(p)) == Leave(s, p, Raised)
    ensures Step(s, Proceed(p)) == if s.final.Some? && FreeBackup(s.backups, p) then MovedAway(s, p) else Leave(s, p, Raised)
  {
    hide Enter, Leave, FreeBackup, Request.Matches;
  }

  lemma SwappingInSteps(s: Store, p: Pid, backedUp: bool)
    requires p in s.phases && p in s.requests && s.phases[p] == Swap(backedUp) && p in s.staging
    ensures Step(s, Fail(p)) == Enter(s, p, Undo(backedUp))
    ensures Step(s, Proceed(p)) == if Free(s.final) then SwappedIn(s, p, backedUp) else Enter(s, p, Undo(backedUp))
  {
    hide Enter, Leave, Free, Request.Matches;
  }

  lemma PuttingBackSteps(s: Store, p: Pid)
    requires p in s.phases && p in s.requests && s.phases[p] == Restore && p in s.backups
    ensures Step(s, Fail(p)) == Leave(s, p, Raised)
    ensures Step(s, Proceed(p)) == if Free(s.final) then HasPutBack(s, p) else Leave(s, p, Raised)
  {
    hide Enter, Leave, Free, Request.Matches;
  }

  lemma LookingBeforeUndoSteps(s: Store, p: Pid, backedUp: bool)
    requires p in s.phases && p in s.requests && s.phases[p] == Undo(backedUp)
    ensures Step(s, Fail(p)) == Leave(s, p, Raised)
    ensures Step(s, Proceed(p)) == if backedUp && p in s.backups && s.final.None? then Enter(s, p, Restore) else Leave(s, p, Raised)
  {
    hide Enter, Leave, Request.Matches;
  }

  lemma PutBackFacts(s: Store, p: Pid)
    requires p in s.backups
    ensures var v := HasPutBack(s, p);
            v.final == Some(s.backups[p]) && v.backups == s.backups - {p} && p in v.phases && v.phases[p] == Over(Raised)
  {
  }

  lemma LookingAgainSteps(s: Store, p: Pid)
    requires p in s.phases && p in s.requests && s.phases[p] == CheckFinal
    ensures Step(s, Fail(p)) == Leave(s, p, Raised)
    ensures Step(s, Proceed(p)) == Enter(s, p, if s.final.Some? then BackUp else Swap(false))
  {
    hide Enter, Leave, Request.Matches;
  }

  /** Entering a phase and leaving with an error move only what is the installer's own. */
  lemma EnterFacts(s: Store, p: Pid, ph: Phase)
    ensures var v := Enter(s, p, ph); p in v.phases && v.phases[p] == ph && SamePaths(s, v) && v.staging == s.staging
  {
  }

  lemma LeaveFacts(s: Store, p: Pid, end: End)
    ensures var v := Leave(s, p, end); p in v.phases && v.phases[p] == Over(end) && SamePaths(s, v)
  {
  }

  /** The store an operation is made in: whatever belongs to the installer is as it was. */
  ghost predicate Met(a: Store, before: Store, p: Pid, alone: bool) {
    OthersMoved(a, before, p) && (alone ==> before == a)
  }

  /** An installer's backup is what it was. */
  ghost predicate HasKept(a: Store, b: Store, p: Pid) {
    p in a.backups && p in b.backups && b.backups[p] == a.backups[p]
  }

  /** What a lone installer leaves when it raises, by the operation whose error it is. */
  ghost predicate RaisedAt(o: Store, final: Option<Dir>, backups: map<Pid, Dir>, p: Pid, at: Phase)
    requires p in o.requests
  {
    if at.Undo? || at.Restore? then o.final.Some? && final.None? && backups == o.backups[p := o.final.value]
    else if at.Clean? || at.Deleting? then final == Some(Built(o.requests[p], p)) && backups - {p} == o.backups - {p}
    else final == o.final && backups - {p} == o.backups - {p}
  }

  lemma BeginsAlone(s: Store, p: Pid)
    requires p in s.phases && p in s.requests && s.phases[p] == Begin
    ensures Alone(s, s, p)
  {
  }

  /** Past its first checks a lone installer has something to install. */
  lemma StagesOnlyToReplace(o: Store, s: Store, p: Pid, alone: bool)
    requires alone ==> Alone(o, s, p)
    requires p in s.phases && p in o.requests && s.phases[p] == Stage
    ensures alone ==> o.final.None? || o.requests[p].replace
  {
  }

  /** Where a lone installer is says what it has done. */
  lemma PathsWhen(o: Store, s: Store, p: Pid, alone: bool)
    requires alone ==> Alone(o, s, p)
    requires p in s.phases
    ensures alone ==>
              && p in o.requests
              && (!s.phases[p].Over? ==> Shape(o, s.final, s.backups, p, s.phases[p]))
  {
  }

  /** A rollback that failed, was not needed, or worked. */
  lemma RaisedAfter(o: Store, a: Store, b: Store, p: Pid, alone: bool, ok: bool)
    requires p in a.phases
    requires alone ==> p in o.requests && Shape(o, a.final, a.backups, p, a.phases[p])
    ensures alone && SamePaths(a, b) && HoldsBackup(a.phases[p]) ==>
              RaisedAt(o, b.final, b.backups, p, Undo(true)) && RaisedAt(o, b.final, b.backups, p, Restore)
    ensures alone && SamePaths(a, b) && a.phases[p] == Undo(false) ==> RaisedAt(o, b.final, b.backups, p, Swap(false))
    ensures alone && HoldsBackup(a.phases[p]) ==> p in a.backups && a.final.None?
    ensures alone && HoldsBackup(a.phases[p]) && b.final == Some(a.backups[p]) && b.backups == a.backups - {p} ==>
              RaisedAt(o, b.final, b.backups, p, Swap(true))
  {
  }

  lemma EndedWhenOver(o: Store, s: Store, p: Pid, alone: bool)
    requires alone ==> Alone(o, s, p)
    requires p in s.phases && s.phases[p].Over?
    ensures alone ==> p in o.requests && Ended(o, s.final, s.backups, p, s.phases[p].end)
  {
  }

  /** The file system as one installer meets it. `alone` is the premise that no other installer does
      anything meanwhile; `o` is the store its installation began with. Every operation first lets the
      others move, then works, answers or fails. */
  class Disk {
    var s: Store

    /** The other installers take any number of steps. */
    method Interfere(p: Pid, alone: bool)
      requires Inv(s) && p in s.phases
      modifies this
      ensures Inv(s) && OthersMoved(old(s), s, p) && (old(s).last.Some? ==> s.last.Some?) && (alone ==> s == old(s))
    {
      hide Inv;
      var schedule: seq<Action> := *;
      if !alone && forall a :: a in schedule ==> a.p != p {
        OthersLeaveAlone(s, schedule, p);
        RunKeepsInv(s, schedule);
        if s.last.Some? {
          InstalledStaysInstalled(s, schedule);
        }
        s := Run(s, schedule);
      }
    }

    /** final_dir.exists(), first time. */
    method LookForFinal(p: Pid, alone: bool, ghost o: Store) returns (ok: bool, there: bool)
      requires Turn(o, s, s, p, alone) && s.phases[p] == Begin
      modifies this
      ensures Turn(o, old(s), s, p, alone) && (alone && !ok ==> SamePaths(old(s), s))
      ensures s.phases[p] == if !ok then Over(Raised) else if there then SawFinal else Stage
    {
      Interfere(p, alone);
      hide Inv, Alone;
      ghost var before := s;
      ok := *;
      there := s.final.Some?;
      s := if !ok then Leave(s, p, Raised) else Enter(s, p, if there then SawFinal else Stage);
      StepIsTurn(o, before, s, p, alone, if ok then Proceed(p) else Fail(p));
    }

    /** manifest_path.exists(), and whether to go by what it says. */
    method LookForManifest(p: Pid, alone: bool, ghost o: Store) returns (ok: bool, written: bool)
      requires Turn(o, s, s, p, alone) && s.phases[p] == SawFinal
      modifies this
      ensures Turn(o, old(s), s, p, alone) && (alone && !ok ==> SamePaths(old(s), s))
      ensures s.phases[p] == if !ok then Over(Raised) else if s.requests[p].replace then Stage
                               else if written then SawManifest else Over(Conflict)
    {
      Interfere(p, alone);
      hide Inv, Alone;
      ghost var before := s;
      ok := *;
      var r := s.requests[p];
      written := s.final.Some? && !s.final.value.contents.manifest.Absent?;
      s := if !ok then Leave(s, p, Raised) else if r.replace then Enter(s, p, Stage)
           else if written then Enter(s, p, SawManifest) else Leave(s, p, Conflict);
      StepIsTurn(o, before, s, p, alone, if ok then Proceed(p) else Fail(p));
    }

    /** Provenance.read and the comparison; a manifest that is gone or garbled raises. */
    method ReadManifest(p: Pid, alone: bool, ghost o: Store) returns (ok: bool, existing: ManifestFile)
      requires Turn(o, s, s, p, alone) && s.phases[p] == SawManifest
      modifies this
      ensures Turn(o, old(s), s, p, alone) && (alone && !ok ==> SamePaths(old(s), s))
      ensures ok ==> existing.Written?
      ensures s.phases[p] == Over(if !ok then Raised else if s.requests[p].Matches(existing) then AlreadyInstalled else Conflict)
    {
      Interfere(p, alone);
      hide Inv, Alone;
      ghost var before := s;
      var works: bool := *;
      existing := if s.final.Some? then s.final.value.contents.manifest else Absent;
      ok := works && existing.Written?;
      s := Leave(s, p, if !ok then Raised else if s.requests[p].Matches(existing) then AlreadyInstalled else Conflict);
      StepIsTurn(o, before, s, p, alone, if works then Proceed(p) else Fail(p));
    }

    /** tempfile.TemporaryDirectory(), and rootfs inside it. */
    method MakeStaging(p: Pid, alone: bool, ghost o: Store) returns (ok: bool)
      requires Turn(o, s, s, p, alone) && s.phases[p] == Stage
      modifies this
      ensures Turn(o, old(s), s, p, alone) && (alone && !ok ==> SamePaths(old(s), s))
      ensures s.phases[p] == if ok then Extract else Over(Raised)
    {
      Interfere(p, alone);
      hide Inv, Alone;
      ghost var before := s;
      ok := *;
      s := if !ok then Leave(s, p, Raised)
           else Enter(s, p, Extract).(staging := s.staging[p := Dir(Staged(p), Contents("", false, Absent, false))]);
      StepIsTurn(o, before, s, p, alone, if ok then Proceed(p) else Fail(p));
    }

    /** safe_extract_tar and validate_rootfs. */
    method ExtractArchive(p: Pid, alone: bool, ghost o: Store) returns (ok: bool)
      requires Turn(o, s, s, p, alone) && s.phases[p] == Extract
      modifies this
      ensures Turn(o, old(s), s, p, alone) && (alone && !ok ==> SamePaths(old(s), s))
      ensures s.phases[p] == if ok then Seal else Over(Raised)
      ensures ok ==> s.requests[p].archiveHasShell
    {
      Interfere(p, alone);
      hide Inv, Alone;
      ghost var before := s;
      var works: bool := *;
      var r := s.requests[p];
      ok := works && r.archiveHasShell;
      s := if !ok then Leave(s, p, Raised)
           else Enter(s, p, Seal).(staging := s.staging[p := Dir(Staged(p), Contents(r.digest, true, Absent, false))]);
      StepIsTurn(o, before, s, p, alone, if works then Proceed(p) else Fail(p));
    }

    /** Provenance(...).write_atomic. */
    method WriteManifest(p: Pid, alone: bool, ghost o: Store) returns (ok: bool)
      requires Turn(o, s, s, p, alone) && s.phases[p] == Seal
      modifies this
      ensures Turn(o, old(s), s, p, alone) && (alone && !ok ==> SamePaths(old(s), s))
      ensures s.phases[p] == if ok then CheckFinal else Over(Raised)
    {
      Interfere(p, alone);
      hide Inv, Alone;
      ghost var before := s;
      ok := *;
      s := if !ok then Leave(s, p, Raised)
           else Enter(s, p, CheckFinal).(staging := s.staging[p := Built(s.requests[p], p)]);
      StepIsTurn(o, before, s, p, alone, if ok then Proceed(p) else Fail(p));
    }

    /** final_dir.exists(), second time. */
    method LookAgain(p: Pid, alone: bool, ghost o: Store) returns (ok: bool, there: bool)
      requires Turn(o, s, s, p, alone) && s.phases[p] == CheckFinal
      modifies this
      ensures Turn(o, old(s), s, p, alone) && (alone && !ok ==> SamePaths(old(s), s))
      ensures s.phases[p] == if !ok then Over(Raised) else if there then BackUp else Swap(false)
      ensures ok ==> there == s.final.Some?
    {
      hide Inv, Alone, Step, Enter, Leave;
      Interfere(p, alone);
      ghost var before := s;
      LookingAgainSteps(s, p);
      ok := *;
      there := s.final.Some?;
      EnterFacts(s, p, if there then BackUp else Swap(false));
      LeaveFacts(s, p, Raised);
      s := if !ok then Leave(s, p, Raised) else Enter(s, p, if there then BackUp else Swap(false));
      StepIsTurn(o, before, s, p, alone, if ok then Proceed(p) else Fail(p));
    }

    /** os.replace(final_dir, backup). Among other installers: exactly what it met at the final path is its
        backup, or nothing shared has changed. */
    method MoveAway(p: Pid, alone: bool, ghost o: Store) returns (ok: bool, ghost before: Store)
      requires Turn(o, s, s, p, alone) && s.phases[p] == BackUp
      modifies this
      ensures Turn(o, old(s), s, p, alone) && Met(old(s), before, p, alone)
      ensures if ok then before.final.Some? && FreeBackup(before.backups, p) && s == MovedAway(before, p)
              else s == Leave(before, p, Raised) && SamePaths(before, s)
      ensures s.phases[p] == if ok then Swap(true) else Over(Raised)
    {
      hide Inv, Alone, Step, Enter, Leave, FreeBackup;
      Interfere(p, alone);
      before := s;
      MovingAwaySteps(s, p);
      EnterFacts(s, p, Swap(true));
      LeaveFacts(s, p, Raised);
      var works: bool := *;
      ok := works && s.final.Some? && FreeBackup(s.backups, p);
      s := if ok then MovedAway(s, p) else Leave(s, p, Raised);
      StepIsTurn(o, before, s, p, alone, if works then Proceed(p) else Fail(p));
    }

    /** os.replace(staging, final_dir). Among other installers: its own staged environment, complete, is at
        the final path, which was free; or nothing shared has changed. */
    method SwapIn(p: Pid, backedUp: bool, alone: bool, ghost o: Store) returns (ok: bool, ghost before: Store)
      requires Turn(o, s, s, p, alone) && s.phases[p] == Swap(backedUp)
      modifies this
      ensures Turn(o, old(s), s, p, alone) && Met(old(s), before, p, alone) && p in before.staging && before.staging[p].Complete()
      ensures if ok then Free(before.final) && s == SwappedIn(before, p, backedUp)
              else s == Enter(before, p, Undo(backedUp)) && SamePaths(before, s)
      ensures s.phases[p] == if ok then Clean(backedUp) else Undo(backedUp)
      ensures ok ==> s.last.Some?
    {
      hide Inv, Alone, Step, Enter, Leave, Free;
      Interfere(p, alone);
      before := s;
      InvFacts(s, p);
      SwappingInSteps(s, p, backedUp);
      EnterFacts(s, p, Clean(backedUp));
      EnterFacts(s, p, Undo(backedUp));
      var works: bool := *;
      ok := works && Free(s.final);
      s := if ok then SwappedIn(s, p, backedUp) else Enter(s, p, Undo(backedUp));
      StepIsTurn(o, before, s, p, alone, if works then Proceed(p) else Fail(p));
    }

    /** backup and backup.exists() and not final_dir.exists(): is there something to put back, and room for it? */
    method LookBeforeUndo(p: Pid, backedUp: bool, alone: bool, ghost o: Store) returns (ok: bool, undo: bool)
      requires Turn(o, s, s, p, alone) && s.phases[p] == Undo(backedUp)
      modifies this
      ensures Turn(o, old(s), s, p, alone) && (alone ==> SamePaths(old(s), s))
      ensures s.phases[p] == if ok && undo then Restore else Over(Raised)
      ensures if backedUp then HasKept(old(s), s, p) && (ok ==> (undo <==> s.final.None?)) else ok && !undo
    {
      hide Inv, Alone, Step, Enter, Leave;
      Interfere(p, alone);
      ghost var before := s;
      InvFacts(s, p);
      LookingBeforeUndoSteps(s, p, backedUp);
      EnterFacts(s, p, Restore);
      LeaveFacts(s, p, Raised);
      var works: bool := *;
      ok := works || !backedUp;
      undo := backedUp && p in s.backups && s.final.None?;
      s := if ok && undo then Enter(s, p, Restore) else Leave(s, p, Raised);
      StepIsTurn(o, before, s, p, alone, if ok then Proceed(p) else Fail(p));
    }

    /** os.replace(backup, final_dir). Among other installers: what was moved away is at the final path
        again, or is still the backup. */
    method PutBack(p: Pid, alone: bool, ghost o: Store) returns (ok: bool, ghost before: Store)
      requires Turn(o, s, s, p, alone) && s.phases[p] == Restore
      modifies this
      ensures Turn(o, old(s), s, p, alone) && Met(old(s), before, p, alone) && p in before.backups
      ensures if ok then Free(before.final) && s == HasPutBack(before, p)
              else s == Leave(before, p, Raised) && SamePaths(before, s)
      ensures s.phases[p] == Over(Raised)
    {
      hide Inv, Alone, Step, Enter, Leave, Free;
      Interfere(p, alone);
      before := s;
      InvFacts(s, p);
      PuttingBackSteps(s, p);
      LeaveFacts(s, p, Raised);
      var works: bool := *;
      ok := works && Free(s.final);
      s := if ok then HasPutBack(s, p) else Leave(s, p, Raised);
      StepIsTurn(o, before, s, p, alone, if works then Proceed(p) else Fail(p));
    }

    /** backup and backup.exists(), after the swap. */
    method LookForBackup(p: Pid, backedUp: bool, alone: bool, ghost o: Store) returns (ok: bool, there: bool)
      requires Turn(o, s, s, p, alone) && s.phases[p] == Clean(backedUp)
      modifies this
      ensures Turn(o, old(s), s, p, alone) && (alone && !ok ==> SamePaths(old(s), s))
      ensures s.phases[p] == if !ok then Over(Raised) else if there then Deleting else Over(Installed)
      ensures !backedUp ==> ok
    {
      Interfere(p, alone);
      hide Inv, Alone;
      ghost var before := s;
      var works: bool := *;
      ok := works || !backedUp;
      there := backedUp && p in s.backups;
      s := if !ok then Leave(s, p, Raised) else if there then Enter(s, p, Deleting) else Leave(s, p, Installed);
      StepIsTurn(o, before, s, p, alone, if ok then Proceed(p) else Fail(p));
    }

    /** shutil.rmtree(backup): entry by entry, perhaps not to the end. */
    method DeleteBackup(p: Pid, alone: bool, ghost o: Store) returns (ok: bool)
      requires Turn(o, s, s, p, alone) && s.phases[p] == Deleting
      modifies this
      ensures Turn(o, old(s), s, p, alone)
      ensures s.phases[p] == Over(if ok then Installed else Raised) && (alone ==> s.final == old(s).final)
    {
      hide Inv, Alone;
      var entries: int := *;
      while entries > 0
        invariant Turn(o, old(s), s, p, alone) && s.phases[p] == Deleting && (alone ==> s.final == old(s).final)
      {
        entries := entries - 1;
        Interfere(p, alone);
        ghost var mid := s;
        if p in s.backups {
          var d := s.backups[p];
          s := s.(backups := s.backups[p := d.(contents := d.contents.(shell := false, manifest := Absent))]);
        }
        StepIsTurn(o, mid, s, p, alone, Delete(p));
      }
      Interfere(p, alone);
      ghost var before := s;
      ok := *;
      s := if ok then Leave(s, p, Installed).(backups := s.backups - {p}) else Leave(s, p, Raised);
      StepIsTurn(o, before, s, p, alone, if ok then Proceed(p) else Fail(p));
    }

    /** The checks of an environment that is already there. */
    method CheckExisting(p: Pid, alone: bool, ghost o: Store) returns (at: Phase)
      requires Turn(o, s, s, p, alone) && s.phases[p] == Begin
      modifies this
      ensures Turn(o, old(s), s, p, alone)
      ensures s.phases[p] == Stage || (s.phases[p].Over? && (s.phases[p].end.AlreadyInstalled? || s.phases[p].end.Conflict? || s.phases[p].end.Raised?))
      ensures at.Begin? || at.SawFinal? || at.SawManifest?
      ensures alone && s.phases[p] == Over(Raised) ==>
                RaisedAt(o, s.final, s.backups, p, at) && s.final == o.final && s.backups == o.backups
    {
      hide Inv, Alone, OthersMoved, Request.Matches;
      PathsWhen(o, s, p, alone);
      at := Begin;
      var ok, there := LookForFinal(p, alone, o);
      if ok && there {
        PathsWhen(o, s, p, alone);
        at := SawFinal;
        var written;
        ok, written := LookForManifest(p, alone, o);
        if ok && !s.requests[p].replace && written {
          PathsWhen(o, s, p, alone);
          at := SawManifest;
          var existing;
          ok, existing := ReadManifest(p, alone, o);
        }
      }
    }

    /** The staging directory and what goes into it. */
    method Build(p: Pid, alone: bool, ghost o: Store) returns (ok: bool, at: Phase)
      requires Turn(o, s, s, p, alone) && s.phases[p] == Stage
      modifies this
      ensures Turn(o, old(s), s, p, alone) && (ok ==> s.requests[p].archiveHasShell)
      ensures s.phases[p] == if ok then CheckFinal else Over(Raised)
      ensures alone && !ok ==> RaisedAt(o, s.final, s.backups, p, at)
    {
      PathsWhen(o, s, p, alone);
      hide Inv, Alone;
      at := Stage;
      ok := MakeStaging(p, alone, o);
      if ok {
        PathsWhen(o, s, p, alone);
        at := Extract;
        ok := ExtractArchive(p, alone, o);
      }
      if ok {
        PathsWhen(o, s, p, alone);
        at := Seal;
        ok := WriteManifest(p, alone, o);
      }
    }

    /** The two renames, the rollback, and the end of the backup. */
    method Activate(p: Pid, alone: bool, ghost o: Store) returns (ok: bool, at: Phase)
      requires Turn(o, s, s, p, alone) && s.phases[p] == CheckFinal
      modifies this
      ensures Turn(o, old(s), s, p, alone)
      ensures s.phases[p] == Over(if ok then Installed else Raised) && (ok ==> s.last.Some?)
      ensures alone && !ok ==> RaisedAt(o, s.final, s.backups, p, at)
    {
      hide Inv, Alone, OthersMoved;
      PathsWhen(o, s, p, alone);
      at := CheckFinal;
      var there;
      ok, there := LookAgain(p, alone, o);
      if ok && there {
        PathsWhen(o, s, p, alone);
        at := BackUp;
        ghost var met;
        ok, met := MoveAway(p, alone, o);
      }
      if ok {
        PathsWhen(o, s, p, alone);
        at := Swap(there);
        ghost var met;
        ok, met := SwapIn(p, there, alone, o);
        PathsWhen(o, s, p, alone);
        if ok {
          at := Clean(there);
          ok, there := LookForBackup(p, there, alone, o);
          if ok && there {
            PathsWhen(o, s, p, alone);
            at := Deleting;
            ok := DeleteBackup(p, alone, o);
            EndedWhenOver(o, s, p, alone);
          }
        } else {
          at := RollBack(p, there, alone, o);
        }
      }
    }

    /** After a failed swap; the swap's own error is raised unless the rollback fails. Among other
        installers too: what was moved away is back at the final path, or is still whole in the backup,
        and if the swap's error is raised the final path is not empty. */
    method RollBack(p: Pid, backedUp: bool, alone: bool, ghost o: Store) returns (at: Phase)
      requires Turn(o, s, s, p, alone) && s.phases[p] == Undo(backedUp)
      modifies this
      ensures Turn(o, old(s), s, p, alone)
      ensures s.phases[p] == Over(Raised) && (at.Swap? || at.Undo? || at.Restore?)
      ensures backedUp ==>
                || (at.Swap? && p in old(s).backups && s.final == Some(old(s).backups[p]) && p !in s.backups)
                || (HasKept(old(s), s, p) && (at.Swap? ==> s.final.Some?))
      ensures alone ==> RaisedAt(o, s.final, s.backups, p, at)
    {
      hide Inv, Alone, Shape, RaisedAt, HasPutBack, Leave;
      PathsWhen(o, s, p, alone);
      at := Undo(backedUp);
      ghost var first := s;
      var ok, undo := LookBeforeUndo(p, backedUp, alone, o);
      RaisedAfter(o, first, s, p, alone, ok);
      if ok && undo {
        PathsWhen(o, s, p, alone);
        first := s;
        at := Restore;
        ghost var before;
        ok, before := PutBack(p, alone, o);
        PutBackFacts(before, p);
        RaisedAfter(o, first, s, p, alone, ok);
      }
      if ok {
        at := Swap(backedUp);
      }
    }

    /** install_rootfs from the first look at the final path on. `at`: the operation whose error is
        raised. Among other installers the invariant holds throughout; alone, the outcome is exact. */
    method InstallRootfs(p: Pid, alone: bool) returns (end: End, at: Phase)
      requires Inv(s) && p in s.phases && s.phases[p] == Begin && p in s.requests
      modifies this
      ensures Inv(s) && p in s.phases && s.phases[p] == Over(end) && !end.Crashed?
      ensures end.Installed? ==> s.last.Some? && Kept(s.final, s.backups, s.last) && s.requests[p].archiveHasShell
      ensures alone ==> Ended(old(s), s.final, s.backups, p, end)
      ensures alone && end.Installed? ==> Holds(s.final, s.requests[p])
      ensures alone && (end.AlreadyInstalled? || end.Conflict?) ==>
                && s.final.Some? && s.final == old(s).final && s.backups == old(s).backups
                && !s.final.value.contents.manifest.Garbled?
                && var m, r := s.final.value.contents.manifest, s.requests[p];
                   end.AlreadyInstalled? <==>
                     m.Written? && m.provenance.image == r.image && m.provenance.version == r.version
                     && m.provenance.arch == r.arch && m.provenance.sha256 == r.digest
      ensures alone && end.Raised? ==> RaisedAt(old(s), s.final, s.backups, p, at)
      ensures alone && old(s).final.Some? && !old(s).requests[p].replace ==>
                && s.final == old(s).final && s.backups == old(s).backups
                && (end.AlreadyInstalled? || end.Conflict? || (end.Raised? && (at.Begin? || at.SawFinal? || at.SawManifest?)))
    {
      ghost var o := s;
      BeginsAlone(s, p);
      hide Alone;
      at := CheckExisting(p, alone, o);
      end := if s.phases[p].Over? then s.phases[p].end else Raised;
      if s.phases[p] == Stage {
        StagesOnlyToReplace(o, s, p, alone);
        var ok;
        ok, at := Build(p, alone, o);
        if ok {
          ok, at := Activate(p, alone, o);
        }
        end := if ok then Installed else Raised;
      }
      EndedWhenOver(o, s, p, alone);
    }
  }
}
