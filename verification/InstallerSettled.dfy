/** When an environment at the final path stays there: the exact condition on the installers under way. */
module InstallerSettled {
  import opened Wrappers
  import opened Installer

  /** The installer can still reach its first rename and carry it out: it would go on to replace, what is
      left of its work can succeed, and its backup path is free. */
  predicate CanUnseat(s: Store, p: Pid) {
    && p in s.phases && p in s.requests && FreeBackup(s.backups, p)
    && match s.phases[p]
       case Begin => s.requests[p].replace && s.requests[p].archiveHasShell
       case SawFinal => s.requests[p].replace && s.requests[p].archiveHasShell
       case Stage => s.requests[p].archiveHasShell
       case Extract => s.requests[p].archiveHasShell
       case Seal => true
       case CheckFinal => true
       case BackUp => true
       case _ => false
  }

  predicate Seated(final: Option<Dir>) {
    final.Some? && !final.value.contents.bare
  }

  ghost predicate NobodyUnseats(s: Store) {
    forall p :: !CanUnseat(s, p)
  }

  // ---- if nobody can, it stays ---------------------------------------------------------------

  /** An installer that cannot unseat what is there leaves it, and its own backup path as full as it is. */
  lemma HarmlessAdvance(s: Store, p: Pid)
    requires p in s.phases && p in s.requests && Seated(s.final) && !CanUnseat(s, p)
    ensures Advance(s, p).final == s.final && Advance(s, p).requests == s.requests && !CanUnseat(Advance(s, p), p)
  {
    hide Request.Matches, Request.Stamp, Built;
  }

  lemma HarmlessStep(s: Store, a: Action)
    requires Seated(s.final) && !CanUnseat(s, a.p)
    ensures Step(s, a).final == s.final && !CanUnseat(Step(s, a), a.p)
  {
    if a.p in s.phases && a.p in s.requests {
      HarmlessAdvance(s, a.p);
    }
    hide Advance, Request.Matches;
  }

  /** Nothing an installer does frees another's backup path or changes its progress. */
  lemma OthersStayHarmless(s: Store, a: Action, q: Pid)
    requires q != a.p && !CanUnseat(s, q)
    ensures !CanUnseat(Step(s, a), q)
  {
    OtherStepLeavesAlone(s, a, q);
    hide Step;
  }

  lemma {:induction false} StaysSeated(s: Store, actions: seq<Action>)
    requires Seated(s.final) && NobodyUnseats(s)
    ensures Run(s, actions).final == s.final
    decreases |actions|
  {
    hide CanUnseat, Step;
    if actions != [] {
      var a := actions[0];
      HarmlessStep(s, a);
      forall q ensures !CanUnseat(Step(s, a), q) {
        if q != a.p {
          OthersStayHarmless(s, a, q);
        }
      }
      StaysSeated(Step(s, a), actions[1..]);
    }
  }

  // ---- if somebody can, there is a run in which it goes ---------------------------------------

  function StepsLeft(ph: Phase): nat {
    match ph
    case Begin => 7
    case SawFinal => 6
    case Stage => 5
    case Extract => 4
    case Seal => 3
    case CheckFinal => 2
    case BackUp => 1
    case _ => 0
  }

  lemma UnseatingAdvance(s: Store, p: Pid)
    requires Seated(s.final) && CanUnseat(s, p)
    ensures if s.phases[p].BackUp? then Advance(s, p).final.None?
            else Advance(s, p).final == s.final && CanUnseat(Advance(s, p), p)
                 && StepsLeft(Advance(s, p).phases[p]) < StepsLeft(s.phases[p])
  {
    hide Request.Matches, Request.Stamp, Built;
  }

  lemma {:induction false} Unseats(s: Store, p: Pid) returns (actions: seq<Action>)
    requires Seated(s.final) && CanUnseat(s, p)
    ensures (forall a :: a in actions ==> a == Proceed(p)) && Run(s, actions).final.None?
    decreases StepsLeft(s.phases[p])
  {
    assert !s.phases[p].Over?;
    UnseatingAdvance(s, p);
    var v := Advance(s, p);
    assert Step(s, Proceed(p)) == v;
    hide Advance, CanUnseat;
    if s.phases[p].BackUp? {
      actions := [Proceed(p)];
      assert actions[1..] == [];
      assert Run(v, []) == v;
    } else {
      var rest := Unseats(v, p);
      actions := [Proceed(p)] + rest;
      assert actions[1..] == rest;
    }
  }

  // ---- both together --------------------------------------------------------------------------

  /** What is at the final path stays there in every run if and only if no installer under way can unseat
      it. One that has yet to look and was not asked to replace, that is past its first rename, whose
      archive has no shell or whose backup path is taken never can. */
  lemma StaysExactly(s: Store)
    requires Seated(s.final)
    ensures (forall actions :: Run(s, actions).final == s.final) <==> NobodyUnseats(s)
  {
    hide CanUnseat, Run;
    if NobodyUnseats(s) {
      forall actions ensures Run(s, actions).final == s.final {
        StaysSeated(s, actions);
      }
    } else {
      var p :| CanUnseat(s, p);
      var actions := Unseats(s, p);
      assert Run(s, actions).final != s.final;
    }
  }

  /** So a reported installation, from the moment of its swap, stays at the final path in every run if
      and only if no other installer under way can unseat it. */
  lemma InstalledStaysExactly(s: Store)
    requires Inv(s) && s.last.Some? && s.final == s.last
    ensures (forall actions :: Run(s, actions).final == s.last) <==> NobodyUnseats(s)
  {
    LatestIsSeated(s);
    hide Inv;
    StaysExactly(s);
  }

  lemma LatestIsSeated(s: Store)
    requires Inv(s) && s.last.Some? && s.final == s.last
    ensures Seated(s.final)
  {
  }

  /** The one step by which the latest installation leaves the final path. */
  lemma LosingStepExactly(s: Store, a: Action)
    requires Inv(s) && s.last.Some? && s.final == s.last
    ensures var v := Step(s, a);
            v.final != v.last <==>
              a.Proceed? && a.p in s.phases && s.phases[a.p].BackUp? && FreeBackup(s.backups, a.p)
  {
    LatestIsSeated(s);
    if a.p in s.phases {
      InvFacts(s, a.p);
      LosingAdvanceExactly(s, a.p);
    }
    hide Inv, Advance, Request.Matches;
  }

  lemma LosingAdvanceExactly(s: Store, p: Pid)
    requires Seated(s.final) && s.final == s.last && p in s.phases && p in s.requests
    ensures Advance(s, p).final != Advance(s, p).last <==> s.phases[p].BackUp? && FreeBackup(s.backups, p)
  {
    hide Request.Matches, Request.Stamp, Built;
  }
}
