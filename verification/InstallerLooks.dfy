/** What an installer's two looks at the final path decide: whether it takes an environment away. */
module InstallerLooks {
  import opened Wrappers
  import opened Installer

  predicate Makes(s: Store, a: Action, p: Pid) {
    a == Proceed(p) && p in s.phases && p in s.requests
  }

  /** The answer of the first look, once it has been made: was there something at the final path? */
  function FirstLook(s: Store, actions: seq<Action>, p: Pid): Option<bool>
    decreases |actions|
  {
    if actions == [] then None
    else if Makes(s, actions[0], p) && s.phases[p].Begin? then Some(s.final.Some?)
    else FirstLook(Step(s, actions[0]), actions[1..], p)
  }

  /** The answer of the second look, made when everything is staged. */
  function SecondLook(s: Store, actions: seq<Action>, p: Pid): Option<bool>
    decreases |actions|
  {
    if actions == [] then None
    else if Makes(s, actions[0], p) && s.phases[p].CheckFinal? then Some(s.final.Some?)
    else SecondLook(Step(s, actions[0]), actions[1..], p)
  }

  /** Whether the rename to the backup path has worked. */
  predicate RenameWorks(s: Store, actions: seq<Action>, p: Pid)
    decreases |actions|
  {
    actions != [] &&
      if Makes(s, actions[0], p) && s.phases[p].BackUp? then s.final.Some? && FreeBackup(s.backups, p)
      else RenameWorks(Step(s, actions[0]), actions[1..], p)
  }

  /** Some action of the installer leaves the final path empty where something was. */
  predicate TakesAway(s: Store, actions: seq<Action>, p: Pid)
    decreases |actions|
  {
    actions != [] &&
      ((actions[0].p == p && s.final.Some? && Step(s, actions[0]).final.None?)
       || TakesAway(Step(s, actions[0]), actions[1..], p))
  }

  /** What taking away needs from here on, by the installer's progress. */
  predicate Needs(s: Store, actions: seq<Action>, p: Pid) {
    && p in s.phases && p in s.requests
    && match s.phases[p]
       case Begin =>
         && FirstLook(s, actions, p).Some? && (FirstLook(s, actions, p).value ==> s.requests[p].replace)
         && SecondLook(s, actions, p) == Some(true) && RenameWorks(s, actions, p)
       case SawFinal => s.requests[p].replace && SecondLook(s, actions, p) == Some(true) && RenameWorks(s, actions, p)
       case Stage => SecondLook(s, actions, p) == Some(true) && RenameWorks(s, actions, p)
       case Extract => SecondLook(s, actions, p) == Some(true) && RenameWorks(s, actions, p)
       case Seal => SecondLook(s, actions, p) == Some(true) && RenameWorks(s, actions, p)
       case CheckFinal => SecondLook(s, actions, p) == Some(true) && RenameWorks(s, actions, p)
       case BackUp => RenameWorks(s, actions, p)
       case _ => false
  }

  predicate BeforeSecondLook(ph: Phase) {
    ph.Begin? || ph.SawFinal? || ph.Stage? || ph.Extract? || ph.Seal? || ph.CheckFinal?
  }

  predicate BeforeRename(ph: Phase) {
    BeforeSecondLook(ph) || ph.BackUp?
  }

  /** No installer goes back to where it has been. */
  lemma OnlyForward(s: Store, a: Action, p: Pid)
    requires p in s.phases
    ensures var v := Step(s, a);
            && p in v.phases
            && (!s.phases[p].Begin? ==> !v.phases[p].Begin?)
            && (!BeforeSecondLook(s.phases[p]) ==> !BeforeSecondLook(v.phases[p]))
            && (!BeforeRename(s.phases[p]) ==> !BeforeRename(v.phases[p]))
  {
    if a.p != p {
      OtherStepLeavesAlone(s, a, p);
      hide Step;
    } else if p in s.requests {
      AdvanceForward(s, p);
      hide Advance;
    }
  }

  lemma AdvanceForward(s: Store, p: Pid)
    requires p in s.phases && p in s.requests
    ensures var v := Advance(s, p);
            && p in v.phases
            && (!s.phases[p].Begin? ==> !v.phases[p].Begin?)
            && (!BeforeSecondLook(s.phases[p]) ==> !BeforeSecondLook(v.phases[p]))
            && (!BeforeRename(s.phases[p]) ==> !BeforeRename(v.phases[p]))
  {
    hide Request.Matches, Request.Stamp, Built, Free, FreeBackup;
  }

  /** So a look that has been made, or has been passed by, is not made again. */
  lemma {:induction false} PastIsPast(s: Store, actions: seq<Action>, p: Pid)
    requires p in s.phases
    ensures !s.phases[p].Begin? ==> FirstLook(s, actions, p).None?
    ensures !BeforeSecondLook(s.phases[p]) ==> SecondLook(s, actions, p).None?
    ensures !BeforeRename(s.phases[p]) ==> !RenameWorks(s, actions, p)
    decreases |actions|
  {
    hide Step;
    if actions != [] {
      OnlyForward(s, actions[0], p);
      PastIsPast(Step(s, actions[0]), actions[1..], p);
    }
  }

  // ---- one action ----------------------------------------------------------------------------

  /** What one action takes away, and what it leaves to be needed. */
  predicate Decides(s: Store, a: Action, rest: seq<Action>, p: Pid) {
    Needs(s, [a] + rest, p) <==>
      (a.p == p && s.final.Some? && Step(s, a).final.None?) || Needs(Step(s, a), rest, p)
  }

  lemma OthersDecideNothing(s: Store, a: Action, rest: seq<Action>, p: Pid)
    requires a.p != p
    ensures Decides(s, a, rest, p)
  {
    OtherStepLeavesAlone(s, a, p);
    assert ([a] + rest)[1..] == rest;
    hide Step;
  }

  /** After an error or a crash, or past its decisions, an installer takes nothing away any more. */
  lemma FaultsDecideNothing(s: Store, a: Action, rest: seq<Action>, p: Pid)
    requires a.p == p && !a.Proceed? && p in s.phases && p in s.requests
    ensures Decides(s, a, rest, p)
  {
    var v := Step(s, a);
    assert v.final == s.final && p in v.phases && v.requests == s.requests;
    assert v.phases[p] == s.phases[p] || (!BeforeRename(v.phases[p]) && !s.phases[p].Over?);
    assert ([a] + rest)[1..] == rest;
    hide Step;
    PastIsPast(v, rest, p);
  }

  lemma LooksDecide(s: Store, rest: seq<Action>, p: Pid)
    requires p in s.phases && p in s.requests && (s.phases[p].Begin? || s.phases[p].SawFinal? || s.phases[p].CheckFinal?)
    ensures Decides(s, Proceed(p), rest, p)
  {
    var v := Step(s, Proceed(p));
    assert v == Advance(s, p);
    assert ([Proceed(p)] + rest)[1..] == rest;
    LookOutcome(s, p);
    hide Step, Advance;
    PastIsPast(v, rest, p);
  }

  lemma LookOutcome(s: Store, p: Pid)
    requires p in s.phases && p in s.requests && (s.phases[p].Begin? || s.phases[p].SawFinal? || s.phases[p].CheckFinal?)
    ensures var v := Advance(s, p);
            && v.final == s.final && v.requests == s.requests && p in v.phases
            && (s.phases[p].Begin? ==> v.phases[p] == if s.final.Some? then SawFinal else Stage)
            && (s.phases[p].SawFinal? ==> if s.requests[p].replace then v.phases[p] == Stage else v.phases[p].SawManifest? || v.phases[p].Over?)
            && (s.phases[p].CheckFinal? ==> v.phases[p] == if s.final.Some? then BackUp else Swap(false))
  {
    hide Request.Matches;
  }

  lemma WorkDecidesNothing(s: Store, rest: seq<Action>, p: Pid)
    requires p in s.phases && p in s.requests && (s.phases[p].Stage? || s.phases[p].Extract? || s.phases[p].Seal?)
    ensures Decides(s, Proceed(p), rest, p)
  {
    var v := Step(s, Proceed(p));
    assert v.final == s.final && v.requests == s.requests && p in v.phases;
    assert v.phases[p].Extract? || v.phases[p].Seal? || v.phases[p].CheckFinal? || v.phases[p].Over?;
    assert ([Proceed(p)] + rest)[1..] == rest;
    hide Step, Advance;
    PastIsPast(v, rest, p);
  }

  lemma RenameDecides(s: Store, rest: seq<Action>, p: Pid)
    requires p in s.phases && p in s.requests && s.phases[p].BackUp?
    ensures Decides(s, Proceed(p), rest, p)
  {
    var v := Step(s, Proceed(p));
    assert v.requests == s.requests && p in v.phases && !BeforeRename(v.phases[p]) && !v.phases[p].SawManifest?;
    assert v.final == if s.final.Some? && FreeBackup(s.backups, p) then None else s.final;
    hide Step, Advance;
    PastIsPast(v, rest, p);
  }

  lemma TheRestDecidesNothing(s: Store, rest: seq<Action>, p: Pid)
    requires p in s.phases && p in s.requests && !BeforeRename(s.phases[p])
    ensures Decides(s, Proceed(p), rest, p)
  {
    OnlyForward(s, Proceed(p), p);
    if s.final.Some? && Step(s, Proceed(p)).final.None? {
      OnlyBackUpOpensGap(s, Proceed(p));
      assert false;
    }
    hide Step, Advance;
  }

  lemma EachActionDecides(s: Store, a: Action, rest: seq<Action>, p: Pid)
    requires p in s.phases && p in s.requests
    ensures Decides(s, a, rest, p)
  {
    hide Decides, Step;
    if a.p != p {
      OthersDecideNothing(s, a, rest, p);
    } else if !a.Proceed? {
      FaultsDecideNothing(s, a, rest, p);
    } else if s.phases[p].Begin? || s.phases[p].SawFinal? || s.phases[p].CheckFinal? {
      LooksDecide(s, rest, p);
    } else if s.phases[p].Stage? || s.phases[p].Extract? || s.phases[p].Seal? {
      WorkDecidesNothing(s, rest, p);
    } else if s.phases[p].BackUp? {
      RenameDecides(s, rest, p);
    } else {
      TheRestDecidesNothing(s, rest, p);
    }
  }

  lemma {:induction false} TakesAwayAsNeeded(s: Store, actions: seq<Action>, p: Pid)
    requires p in s.phases && p in s.requests
    ensures TakesAway(s, actions, p) <==> Needs(s, actions, p)
    decreases |actions|
  {
    hide Step, Needs;
    if actions == [] {
      NothingNeedsNothing(s, p);
    } else {
      var v := Step(s, actions[0]);
      assert [actions[0]] + actions[1..] == actions;
      EachActionDecides(s, actions[0], actions[1..], p);
      OnlyForward(s, actions[0], p);
      RequestsStay(s, actions[0]);
      TakesAwayAsNeeded(v, actions[1..], p);
    }
  }

  lemma NothingNeedsNothing(s: Store, p: Pid)
    ensures !Needs(s, [], p)
  {
  }

  lemma RequestsStay(s: Store, a: Action)
    ensures Step(s, a).requests == s.requests
  {
    hide Request.Matches;
  }

  /** Among any installers, whatever fails: an installer takes away what is at the final path if and only
      if its second look finds something there, the rename to its backup path works, and its first look
      found nothing or it was asked to replace. So one that was not asked to replace takes an environment
      away if and only if that environment was put there between its two looks. */
  lemma TakesAwayExactly(s: Store, actions: seq<Action>, p: Pid)
    requires p in s.phases && p in s.requests && s.phases[p] == Begin
    ensures TakesAway(s, actions, p) <==>
              && SecondLook(s, actions, p) == Some(true) && RenameWorks(s, actions, p)
              && (FirstLook(s, actions, p) == Some(false) || (FirstLook(s, actions, p) == Some(true) && s.requests[p].replace))
  {
    TakesAwayAsNeeded(s, actions, p);
    hide FirstLook, SecondLook, RenameWorks, TakesAway;
  }
}
