/** Rootfs installation as a protocol: any number of installers, each a sequence of file-system
    operations, interleaved in any order, each of which may fail or be the installer's last. */
module Installer {
  import opened Wrappers

  type Pid = nat

  datatype Provenance = Provenance(image: string, version: string, arch: string, source: string, sha256: string)

  datatype ManifestFile = Absent | Garbled | Written(provenance: Provenance)

  /** What is in an environment directory. `archive`: digest of the archive its root file system was
      extracted from. `shell`: it has a usable shell. `bare`: it has no entries at all. */
  datatype Contents = Contents(archive: string, shell: bool, manifest: ManifestFile, bare: bool) {
    predicate Complete() {
      !bare && shell && manifest.Written? && manifest.provenance.sha256 == archive
    }
  }

  /** Where a directory came from; no two directories share an origin. `Original`: it was at the final
      path, with those contents, before any of the installers ran. */
  datatype Origin = Original(was: Contents) | Leftover(p: Pid) | Staged(p: Pid)

  datatype Dir = Dir(origin: Origin, contents: Contents) {
    predicate Complete() {
      contents.Complete()
    }

    /** Complete, or untouched since before any of the installers ran. */
    predicate Sound() {
      Complete() || (origin.Original? && contents == origin.was)
    }
  }

  /** What one call of install_rootfs was asked for; `digest` is the verified digest of its archive. */
  datatype Request = Request(
    image: string, version: string, arch: string, source: string, digest: string, archiveHasShell: bool, replace: bool)
  {
    function Stamp(): Provenance {
      Provenance(image, version, arch, source, digest)
    }

    /** The comparison that makes a repeated installation a no-op. */
    predicate Matches(m: ManifestFile) {
      m.Written? && m.provenance.sha256 == digest && m.provenance.image == image
      && m.provenance.version == version && m.provenance.arch == arch
    }
  }

  datatype End = Installed | AlreadyInstalled | Conflict | Raised | Crashed

  /** The operation an installer makes next. `backedUp`: its local variable `backup` is set. */
  datatype Phase =
    | Begin                      // does the final directory exist?
    | SawFinal                   // does its manifest exist?
    | SawManifest                // read it and compare
    | Stage                      // make the staging directory
    | Extract                    // extract the archive into it and look for a shell
    | Seal                       // write the manifest
    | CheckFinal                 // does the final directory exist now?
    | BackUp                     // rename it to this installer's backup path
    | Swap(backedUp: bool)       // rename staging to final
    | Undo(backedUp: bool)       // after a failed swap: is there a backup, and no final directory?
    | Restore                    // rename the backup back
    | Clean(backedUp: bool)      // after the swap: is there a backup?
    | Deleting                   // delete it, entry by entry
    | Over(end: End)

  /** `last`: the directory most recently put at the final path by an installation. */
  datatype Store = Store(
    final: Option<Dir>, backups: map<Pid, Dir>, staging: map<Pid, Dir>,
    phases: map<Pid, Phase>, requests: map<Pid, Request>, last: Option<Dir>)

  datatype Action =
    | Proceed(p: Pid)            // the next operation works, or answers
    | Fail(p: Pid)               // it fails with an operating system error
    | Delete(p: Pid)             // one more entry of a backup being deleted goes
    | Crash(p: Pid)              // the installer stops for good

  /** The environment an installer has built, before it is swapped in. */
  function Built(r: Request, p: Pid): Dir {
    Dir(Staged(p), Contents(r.digest, true, Written(r.Stamp()), false))
  }

  /** rename(2) puts a directory at a path that is absent or an empty directory. */
  predicate Free(d: Option<Dir>) {
    d.None? || d.value.contents.bare
  }

  predicate FreeBackup(backups: map<Pid, Dir>, p: Pid) {
    p in backups ==> backups[p].contents.bare
  }

  function Enter(s: Store, p: Pid, ph: Phase): Store {
    s.(phases := s.phases[p := ph])
  }

  /** Leaving with an error, or done: the temporary staging directory goes. */
  function Leave(s: Store, p: Pid, end: End): Store {
    s.(phases := s.phases[p := Over(end)], staging := s.staging - {p})
  }

  function Advance(s: Store, p: Pid): Store
    requires p in s.phases && p in s.requests
  {
    var r := s.requests[p];
    match s.phases[p]
    case Begin => Enter(s, p, if s.final.Some? then SawFinal else Stage)
    case SawFinal =>
      if s.final.Some? && !s.final.value.contents.manifest.Absent? && !r.replace then Enter(s, p, SawManifest)
      else if !r.replace then Leave(s, p, Conflict)
      else Enter(s, p, Stage)
    case SawManifest =>
      if s.final.None? || !s.final.value.contents.manifest.Written? then Leave(s, p, Raised)
      else if r.Matches(s.final.value.contents.manifest) then Leave(s, p, AlreadyInstalled)
      else Leave(s, p, Conflict)
    case Stage => Enter(s, p, Extract).(staging := s.staging[p := Dir(Staged(p), Contents("", false, Absent, false))])
    case Extract =>
      if r.archiveHasShell then Enter(s, p, Seal).(staging := s.staging[p := Dir(Staged(p), Contents(r.digest, true, Absent, false))])
      else Leave(s, p, Raised)
    case Seal =>
      Enter(s, p, CheckFinal).(staging := s.staging[p := Built(r, p)])
    case CheckFinal => Enter(s, p, if s.final.Some? then BackUp else Swap(false))
    case BackUp =>
      if s.final.Some? && FreeBackup(s.backups, p)
      then Enter(s, p, Swap(true)).(backups := s.backups[p := s.final.value], final := None)
      else Leave(s, p, Raised)
    case Swap(backedUp) =>
      if Free(s.final) && p in s.staging
      then Enter(s, p, Clean(backedUp)).(final := Some(s.staging[p]), last := Some(s.staging[p]), staging := s.staging - {p})
      else Enter(s, p, Undo(backedUp))
    case Undo(backedUp) =>
      if backedUp && p in s.backups && s.final.None? then Enter(s, p, Restore) else Leave(s, p, Raised)
    case Restore =>
      if Free(s.final) && p in s.backups
      then Leave(s, p, Raised).(final := Some(s.backups[p]), backups := s.backups - {p})
      else Leave(s, p, Raised)
    case Clean(backedUp) => if backedUp && p in s.backups then Enter(s, p, Deleting) else Leave(s, p, Installed)
    case Deleting => Leave(s, p, Installed).(backups := s.backups - {p})
    case Over(_) => s
  }

  function Step(s: Store, a: Action): Store {
    if a.p !in s.phases || a.p !in s.requests || s.phases[a.p].Over? then s
    else match a
      case Proceed(p) => Advance(s, p)
      case Fail(p) => if s.phases[p].Swap? then Enter(s, p, Undo(s.phases[p].backedUp)) else Leave(s, p, Raised)
      case Delete(p) =>
        if s.phases[p].Deleting? && p in s.backups
        then s.(backups := s.backups[p := s.backups[p].(contents := s.backups[p].contents.(shell := false, manifest := Absent))]) else s
      case Crash(p) => Enter(s, p, Over(Crashed))
  }

  function Run(s: Store, actions: seq<Action>): Store
    decreases |actions|
  {
    if actions == [] then s else Run(Step(s, actions[0]), actions[1..])
  }

  // ---- what installers leave alone -----------------------------------------------------------

  /** Only other installers have moved: whatever belongs to `p` is as it was. */
  ghost predicate OthersMoved(a: Store, b: Store, p: Pid) {
    && (p in a.phases <==> p in b.phases) && (p in a.phases ==> b.phases[p] == a.phases[p]) && b.requests == a.requests
    && (p in a.staging <==> p in b.staging) && (p in a.staging ==> b.staging[p] == a.staging[p])
    && (p in a.backups <==> p in b.backups) && (p in a.backups ==> b.backups[p] == a.backups[p])
  }

  /** Phases whose operation moves, makes or removes a shared directory. */
  predicate Moves(ph: Phase) {
    ph.BackUp? || ph.Swap? || ph.Restore? || ph.Deleting?
  }

  lemma OtherAdvanceLeavesAlone(s: Store, q: Pid, p: Pid)
    requires q != p && q in s.phases && q in s.requests
    ensures OthersMoved(s, Advance(s, q), p)
  {
    hide Advance, OthersMoved;
    if Moves(s.phases[q]) {
      OtherMoveLeavesAlone(s, q, p);
    } else if s.phases[q].Stage? || s.phases[q].Extract? || s.phases[q].Seal? {
      OtherStagingLeavesAlone(s, q, p);
    } else {
      OtherLookLeavesAlone(s, q, p);
    }
  }

  lemma OtherMoveLeavesAlone(s: Store, q: Pid, p: Pid)
    requires q != p && q in s.phases && q in s.requests && Moves(s.phases[q])
    ensures OthersMoved(s, Advance(s, q), p)
  {
    hide Request.Matches, Request.Stamp, Built, Free, FreeBackup;
  }

  lemma OtherStagingLeavesAlone(s: Store, q: Pid, p: Pid)
    requires q != p && q in s.phases && q in s.requests && (s.phases[q].Stage? || s.phases[q].Extract? || s.phases[q].Seal?)
    ensures OthersMoved(s, Advance(s, q), p)
  {
    hide Request.Matches, Request.Stamp, Built, Free, FreeBackup;
  }

  lemma OtherLookLeavesAlone(s: Store, q: Pid, p: Pid)
    requires q != p && q in s.phases && q in s.requests && !Moves(s.phases[q])
    requires !s.phases[q].Stage? && !s.phases[q].Extract? && !s.phases[q].Seal?
    ensures OthersMoved(s, Advance(s, q), p)
  {
    hide Request.Matches, Request.Stamp, Built, Free, FreeBackup;
  }

  lemma OtherStepLeavesAlone(s: Store, a: Action, p: Pid)
    requires a.p != p
    ensures OthersMoved(s, Step(s, a), p)
  {
    if a.p in s.phases && a.p in s.requests {
      OtherAdvanceLeavesAlone(s, a.p, p);
    }
    hide Advance;
  }

  // ---- the invariant -------------------------------------------------------------------------

  predicate Used(final: Option<Dir>, backups: map<Pid, Dir>, o: Origin) {
    (final.Some? && final.value.origin == o) || exists p :: p in backups && backups[p].origin == o
  }

  /** Phases in which the installer has not put its own directory at the final path. */
  predicate BeforeInstalling(ph: Phase) {
    !ph.Clean? && !ph.Deleting? && !ph.Over?
  }

  predicate HasSealed(ph: Phase) {
    ph.CheckFinal? || ph.BackUp? || ph.Swap? || ph.Undo? || ph.Restore?
  }

  predicate HoldsBackup(ph: Phase) {
    (ph.Swap? && ph.backedUp) || (ph.Undo? && ph.backedUp) || ph.Restore?
  }

  predicate DropsBackup(ph: Phase) {
    (ph.Clean? && ph.backedUp) || ph.Deleting?
  }

  /** No directory is at two of the shared paths. */
  ghost predicate Apart(final: Option<Dir>, backups: map<Pid, Dir>) {
    && (forall p :: p in backups && final.Some? ==> backups[p].origin != final.value.origin)
    && (forall p, q :: p in backups && q in backups && p != q ==> backups[p].origin != backups[q].origin)
  }

  /** What is still private to an installer is at none of the shared paths. */
  ghost predicate Private(s: Store) {
    && (forall p :: p in s.staging ==> s.staging[p].origin == Staged(p) && !Used(s.final, s.backups, Staged(p)))
    && (forall p :: p in s.phases && BeforeInstalling(s.phases[p]) ==> !Used(s.final, s.backups, Staged(p)))
  }

  ghost predicate Sealed(staging: map<Pid, Dir>, phases: map<Pid, Phase>) {
    forall p :: p in phases && HasSealed(phases[p]) ==> p in staging && staging[p].Complete()
  }

  ghost predicate Holding(backups: map<Pid, Dir>, phases: map<Pid, Phase>) {
    forall p :: p in phases && HoldsBackup(phases[p]) ==> p in backups && backups[p].Sound()
  }

  /** The latest installation is at the final path or whole in some backup. */
  predicate Kept(final: Option<Dir>, backups: map<Pid, Dir>, last: Option<Dir>) {
    last.Some? ==>
      last.value.Complete() && (final == last || exists p :: p in backups && backups[p] == last.value)
  }

  /** An installer that drops its backup has itself installed since; the latest is another directory. */
  ghost predicate DropsOnlyOld(backups: map<Pid, Dir>, phases: map<Pid, Phase>, last: Option<Dir>) {
    forall p :: p in phases && DropsBackup(phases[p]) ==>
      last.Some? && (p in backups ==> backups[p].origin != last.value.origin)
  }

  /** The final path is absent, complete, or never touched. */
  predicate FinalSound(final: Option<Dir>) {
    final.Some? ==> final.value.Sound()
  }

  ghost predicate Inv(s: Store) {
    && s.phases.Keys == s.requests.Keys
    && Apart(s.final, s.backups) && Private(s) && Sealed(s.staging, s.phases) && Holding(s.backups, s.phases)
    && Kept(s.final, s.backups, s.last) && DropsOnlyOld(s.backups, s.phases, s.last) && FinalSound(s.final)
  }

  /** Nothing has run yet; earlier crashes may have left backups behind. */
  ghost predicate Initial(s: Store) {
    && s.phases.Keys == s.requests.Keys && s.staging == map[]
    && (forall p :: p in s.phases ==> s.phases[p] == Begin)
    && (s.final.Some? ==> s.final.value.origin == Original(s.final.value.contents))
    && (forall p :: p in s.backups ==> s.backups[p].origin == Leftover(p))
    && s.last == (if s.final.Some? && s.final.value.Complete() then s.final else None)
  }

  lemma InitialIsInv(s: Store)
    requires Initial(s)
    ensures Inv(s)
  {
  }

  /** An installer changes its own phase and staging directory, and nothing shared. */
  lemma PrivateChangeKeeps(s: Store, v: Store, p: Pid, ph: Phase)
    requires Inv(s) && p in s.phases
    requires v == s.(phases := s.phases[p := ph], staging := v.staging)
    requires v.staging == s.staging - {p} || v.staging == s.staging
             || (p in v.staging && v.staging == s.staging[p := v.staging[p]] && v.staging[p].origin == Staged(p)
                 && BeforeInstalling(s.phases[p]))
    requires BeforeInstalling(ph) ==> BeforeInstalling(s.phases[p])
    requires HasSealed(ph) ==> p in v.staging && v.staging[p].Complete()
    requires HoldsBackup(ph) ==> HoldsBackup(s.phases[p])
    requires DropsBackup(ph) ==> DropsBackup(s.phases[p])
    ensures Inv(v)
  {
    PrivateStays(s, v, p, ph);
    SealedStays(s, v, p, ph);
    PhaseChangeKeeps(s, v, p, ph);
    hide Used, Dir.Complete, Dir.Sound, Kept, Apart, Private, Sealed, Holding, DropsOnlyOld, HasSealed, HoldsBackup, DropsBackup;
  }

  lemma PrivateStays(s: Store, v: Store, p: Pid, ph: Phase)
    requires Private(s) && p in s.phases && v.phases == s.phases[p := ph]
    requires v.staging == s.staging - {p} || v.staging == s.staging
             || (p in v.staging && v.staging == s.staging[p := v.staging[p]] && v.staging[p].origin == Staged(p)
                 && BeforeInstalling(s.phases[p]))
    requires forall o :: Used(v.final, v.backups, o) ==>
               Used(s.final, s.backups, o) || (o == Staged(p) && p !in v.staging && !BeforeInstalling(ph))
    requires BeforeInstalling(ph) ==> BeforeInstalling(s.phases[p])
    ensures Private(v)
  {
    hide Used, BeforeInstalling;
  }

  lemma SealedStays(s: Store, v: Store, p: Pid, ph: Phase)
    requires Sealed(s.staging, s.phases) && v.phases == s.phases[p := ph]
    requires forall q :: q != p && q in s.staging ==> q in v.staging && v.staging[q] == s.staging[q]
    requires HasSealed(ph) ==> p in v.staging && v.staging[p].Complete()
    ensures Sealed(v.staging, v.phases)
  {
    hide HasSealed, Dir.Complete;
  }

  lemma PhaseChangeKeeps(s: Store, v: Store, p: Pid, ph: Phase)
    requires Holding(s.backups, s.phases) && DropsOnlyOld(s.backups, s.phases, s.last) && p in s.phases
    requires v.phases == s.phases[p := ph] && v.backups == s.backups && v.last == s.last
    requires HoldsBackup(ph) ==> HoldsBackup(s.phases[p])
    requires DropsBackup(ph) ==> DropsBackup(s.phases[p])
    ensures Holding(v.backups, v.phases) && DropsOnlyOld(v.backups, v.phases, v.last)
  {
    hide HoldsBackup, DropsBackup, Dir.Sound;
  }

  lemma HoldingStays(s: Store, v: Store, p: Pid, ph: Phase)
    requires Holding(s.backups, s.phases) && v.phases == s.phases[p := ph]
    requires forall q :: q != p && q in s.backups ==> q in v.backups && v.backups[q] == s.backups[q]
    requires HoldsBackup(ph) ==> p in v.backups && v.backups[p].Sound()
    ensures Holding(v.backups, v.phases)
  {
    hide HoldsBackup, Dir.Sound;
  }

  lemma InvFacts(s: Store, p: Pid)
    requires Inv(s) && p in s.phases
    ensures p in s.requests
    ensures HasSealed(s.phases[p]) ==> p in s.staging && s.staging[p].Complete()
    ensures HoldsBackup(s.phases[p]) ==> p in s.backups && s.backups[p].Sound()
  {
  }

  /** An installer moves, makes or removes a directory at its own backup path or at the final path. */
  lemma SharedChangeKeeps(s: Store, v: Store, p: Pid, ph: Phase)
    requires Inv(s) && p in s.phases
    requires v == s.(phases := s.phases[p := ph], staging := v.staging, final := v.final, backups := v.backups, last := v.last)
    requires v.staging == s.staging || v.staging == s.staging - {p}
    requires Apart(v.final, v.backups) && Kept(v.final, v.backups, v.last) && FinalSound(v.final)
    requires forall o :: Used(v.final, v.backups, o) ==>
               Used(s.final, s.backups, o) || (o == Staged(p) && p !in v.staging && !BeforeInstalling(ph))
    requires forall q :: q != p && q in s.backups ==> q in v.backups && v.backups[q] == s.backups[q]
    requires v.backups.Keys <= s.backups.Keys + {p}
    requires BeforeInstalling(ph) ==> BeforeInstalling(s.phases[p])
    requires HasSealed(ph) ==> p in v.staging && v.staging[p].Complete()
    requires HoldsBackup(ph) ==> p in v.backups && v.backups[p].Sound()
    requires DropsBackup(ph) ==> v.last.Some? && (p in v.backups ==> v.backups[p].origin != v.last.value.origin)
    requires v.last == s.last || (v.last.Some? && !Used(s.final, s.backups, v.last.value.origin))
    ensures Inv(v)
  {
    PrivateStays(s, v, p, ph);
    SealedStays(s, v, p, ph);
    HoldingStays(s, v, p, ph);
    DropsOnlyOldStays(s, v, p, ph);
    hide Used, Dir.Complete, Dir.Sound, Kept, Apart, FinalSound;
    hide Private, Sealed, Holding, DropsOnlyOld, HasSealed, HoldsBackup, DropsBackup;
  }

  lemma DropsOnlyOldStays(s: Store, v: Store, p: Pid, ph: Phase)
    requires DropsOnlyOld(s.backups, s.phases, s.last) && v.phases == s.phases[p := ph]
    requires forall q :: q != p && q in s.backups ==> q in v.backups && v.backups[q] == s.backups[q]
    requires v.backups.Keys <= s.backups.Keys + {p}
    requires DropsBackup(ph) ==> v.last.Some? && (p in v.backups ==> v.backups[p].origin != v.last.value.origin)
    requires v.last == s.last || (v.last.Some? && !Used(s.final, s.backups, v.last.value.origin))
    ensures DropsOnlyOld(v.backups, v.phases, v.last)
  {
    assert forall q :: q in s.backups ==> Used(s.final, s.backups, s.backups[q].origin);
  }

  lemma QuietKeeps(s: Store, p: Pid)
    requires Inv(s) && p in s.phases && p in s.requests && !Moves(s.phases[p]) && !s.phases[p].Over?
    ensures Inv(Advance(s, p))
  {
    hide Inv, Advance;
    if s.phases[p].Stage? || s.phases[p].Extract? || s.phases[p].Seal? {
      StagingKeeps(s, p);
    } else if s.phases[p].Begin? || s.phases[p].SawFinal? || s.phases[p].SawManifest? {
      AskingKeeps(s, p);
    } else {
      CheckingKeeps(s, p);
    }
  }

  lemma AskingKeeps(s: Store, p: Pid)
    requires Inv(s) && p in s.phases && p in s.requests
    requires s.phases[p].Begin? || s.phases[p].SawFinal? || s.phases[p].SawManifest?
    ensures Inv(Advance(s, p))
  {
    hide Inv, Request.Matches;
    PrivateChangeKeeps(s, Advance(s, p), p, Advance(s, p).phases[p]);
  }

  lemma CheckingKeeps(s: Store, p: Pid)
    requires Inv(s) && p in s.phases && p in s.requests
    requires s.phases[p].CheckFinal? || s.phases[p].Undo? || s.phases[p].Clean?
    ensures Inv(Advance(s, p))
  {
    var ph := CheckingLeads(s, p);
    hide *;
    if ph.Over? {
      LeaveKeeps(s, p, ph.end);
    } else {
      CheckedKeeps(s, p, ph);
    }
  }

  /** The looks after staging lead to another phase, or to the end. */
  lemma CheckingLeads(s: Store, p: Pid) returns (ph: Phase)
    requires p in s.phases && p in s.requests && (s.phases[p].CheckFinal? || s.phases[p].Undo? || s.phases[p].Clean?)
    ensures if ph.Over? then Advance(s, p) == Leave(s, p, ph.end) else Advance(s, p) == Enter(s, p, ph) && MayFollow(s.phases[p], ph)
  {
    hide Leave, Enter, Request.Matches;
    match s.phases[p]
    case CheckFinal => ph := if s.final.Some? then BackUp else Swap(false);
    case Undo(backedUp) => ph := if backedUp && p in s.backups && s.final.None? then Restore else Over(Raised);
    case Clean(backedUp) => ph := if backedUp && p in s.backups then Deleting else Over(Installed);
  }

  predicate MayFollow(before: Phase, after: Phase) {
    || (before.CheckFinal? && (after == BackUp || after == Swap(false)))
    || (before.Swap? && after == Undo(before.backedUp))
    || (before == Undo(true) && after == Restore)
    || (before == Clean(true) && after == Deleting)
  }

  lemma CheckedKeeps(s: Store, p: Pid, ph: Phase)
    requires Inv(s) && p in s.phases && MayFollow(s.phases[p], ph)
    ensures Inv(Enter(s, p, ph))
  {
    hide Inv, Dir.Complete, Dir.Sound;
    InvFacts(s, p);
    PrivateChangeKeeps(s, Enter(s, p, ph), p, ph);
  }

  lemma StagingKeeps(s: Store, p: Pid)
    requires Inv(s) && p in s.phases && p in s.requests && (s.phases[p].Stage? || s.phases[p].Extract? || s.phases[p].Seal?)
    ensures Inv(Advance(s, p))
  {
    hide Inv;
    PrivateChangeKeeps(s, Advance(s, p), p, Advance(s, p).phases[p]);
  }

  lemma FaultKeeps(s: Store, a: Action)
    requires Inv(s) && (a.Fail? || a.Crash?)
    ensures Inv(Step(s, a))
  {
    var v := Step(s, a);
    if v != s {
      InvFacts(s, a.p);
      hide Inv;
      PrivateChangeKeeps(s, v, a.p, v.phases[a.p]);
    }
  }

  lemma BackUpKeeps(s: Store, p: Pid)
    requires Inv(s) && p in s.phases && p in s.requests && s.phases[p].BackUp?
    ensures Inv(Advance(s, p))
  {
    LeaveKeeps(s, p, Raised);
    if s.final.Some? && FreeBackup(s.backups, p) {
      BackedUpKeeps(s, p);
    }
    hide Inv, Enter, Leave, Request.Matches;
  }

  /** The final directory goes to the backup path of `p`, which swaps next. */
  lemma BackedUpKeeps(s: Store, p: Pid)
    requires Inv(s) && p in s.phases && s.phases[p].BackUp? && s.final.Some? && FreeBackup(s.backups, p)
    ensures Inv(Enter(s, p, Swap(true)).(backups := s.backups[p := s.final.value], final := None))
  {
    hide Inv, Kept, Dir.Complete, Dir.Sound;
    InvFacts(s, p);
    SharedFacts(s);
    var backups := s.backups[p := s.final.value];
    assert forall o :: Used(None, backups, o) ==> Used(s.final, s.backups, o);
    KeptWhenBackedUp(s, p);
    assert Apart(None, backups) && backups[p].Sound() by { FinalIsSound(s); }
    hide Used, Apart, FinalSound, DropsOnlyOld;
    SharedChangeKeeps(s, Enter(s, p, Swap(true)).(backups := backups, final := None), p, Swap(true));
  }

  lemma FinalIsSound(s: Store)
    requires FinalSound(s.final)
    ensures s.final.Some? ==> s.final.value.Sound()
  {
  }

  lemma SharedFacts(s: Store)
    requires Inv(s)
    ensures Apart(s.final, s.backups) && Kept(s.final, s.backups, s.last) && FinalSound(s.final)
    ensures forall p :: p in s.staging ==> s.staging[p].origin == Staged(p) && !Used(s.final, s.backups, Staged(p))
    ensures DropsOnlyOld(s.backups, s.phases, s.last)
  {
  }

  lemma KeptWhenBackedUp(s: Store, p: Pid)
    requires Kept(s.final, s.backups, s.last) && s.final.Some? && FreeBackup(s.backups, p)
    ensures Kept(None, s.backups[p := s.final.value], s.last)
  {
    var backups := s.backups[p := s.final.value];
    if s.last.Some? {
      if s.final == s.last {
        assert backups[p] == s.last.value;
      } else {
        var q :| q in s.backups && s.backups[q] == s.last.value;
        assert backups[q] == s.last.value;
      }
    }
  }


  lemma SwapKeeps(s: Store, p: Pid)
    requires Inv(s) && p in s.phases && p in s.requests && s.phases[p].Swap?
    ensures Inv(Advance(s, p))
  {
    hide Inv, Enter, Leave, Request.Matches, Dir.Complete, Dir.Sound;
    InvFacts(s, p);
    CheckedKeeps(s, p, Undo(s.phases[p].backedUp));
    if Free(s.final) {
      SwappedKeeps(s, p, s.phases[p].backedUp);
    }
  }

  /** The staged directory of `p` goes to the absent final path and is the latest installation. */
  lemma SwappedKeeps(s: Store, p: Pid, backedUp: bool)
    requires Inv(s) && p in s.phases && s.phases[p] == Swap(backedUp) && Free(s.final) && p in s.staging
    ensures var d := Some(s.staging[p]);
            Inv(Enter(s, p, Clean(backedUp)).(final := d, last := d, staging := s.staging - {p}))
  {
    InvFacts(s, p);
    SharedFacts(s);
    hide Inv;
    var d := Some(s.staging[p]);
    assert forall o :: Used(d, s.backups, o) ==> Used(s.final, s.backups, o) || o == Staged(p);
    assert forall q :: q in s.backups ==> Used(s.final, s.backups, s.backups[q].origin);
    hide Used, Dir.Complete;
    SharedChangeKeeps(s, Enter(s, p, Clean(backedUp)).(final := d, last := d, staging := s.staging - {p}), p, Clean(backedUp));
  }

  lemma RestoreKeeps(s: Store, p: Pid)
    requires Inv(s) && p in s.phases && p in s.requests && s.phases[p].Restore?
    ensures Inv(Advance(s, p))
  {
    InvFacts(s, p);
    LeaveKeeps(s, p, Raised);
    if Free(s.final) && p in s.backups {
      RestoredKeeps(s, p);
    }
    hide Inv, Enter, Leave, Request.Matches;
  }

  lemma LeaveKeeps(s: Store, p: Pid, end: End)
    requires Inv(s) && p in s.phases
    ensures Inv(Leave(s, p, end))
  {
    hide Inv, Dir.Complete;
    PrivateChangeKeeps(s, Leave(s, p, end), p, Over(end));
  }

  /** The backup of `p` goes back to the absent final path. */
  lemma RestoredKeeps(s: Store, p: Pid)
    requires Inv(s) && p in s.phases && s.phases[p].Restore? && Free(s.final) && p in s.backups
    ensures Inv(Leave(s, p, Raised).(final := Some(s.backups[p]), backups := s.backups - {p}))
  {
    InvFacts(s, p);
    SharedFacts(s);
    hide Inv;
    var final, backups := Some(s.backups[p]), s.backups - {p};
    assert Used(s.final, s.backups, s.backups[p].origin);
    assert forall o :: Used(final, backups, o) ==> Used(s.final, s.backups, o);
    KeptWhenRestored(s, p);
    hide Used, Kept, Dir.Complete, Dir.Sound;
    SharedChangeKeeps(s, Leave(s, p, Raised).(final := final, backups := backups), p, Over(Raised));
  }

  lemma KeptWhenRestored(s: Store, p: Pid)
    requires Kept(s.final, s.backups, s.last) && Free(s.final) && p in s.backups
    ensures Kept(Some(s.backups[p]), s.backups - {p}, s.last)
  {
    if s.last.Some? {
      var q :| q in s.backups && s.backups[q] == s.last.value;
      if q != p {
        assert (s.backups - {p})[q] == s.last.value;
      }
    }
  }

  lemma DeletingKeeps(s: Store, p: Pid, a: Action)
    requires Inv(s) && p in s.phases && p in s.requests && s.phases[p].Deleting? && (a == Proceed(p) || a == Delete(p))
    ensures Inv(Step(s, a))
  {
    if a.Proceed? {
      DeletedKeeps(s, s.backups - {p}, p);
      var u := s.(backups := s.backups - {p});
      hide Inv;
      PrivateChangeKeeps(u, Step(s, a), p, Over(Installed));
    } else if p in s.backups {
      DeletedKeeps(s, s.backups[p := s.backups[p].(contents := s.backups[p].contents.(shell := false, manifest := Absent))], p);
    }
  }

  /** A backup being dropped loses entries, or goes altogether. */
  predicate Shrunk(before: map<Pid, Dir>, backups: map<Pid, Dir>, p: Pid) {
    backups == before - {p} || (p in before && backups.Keys == before.Keys
               && backups == before[p := backups[p]] && backups[p].origin == before[p].origin)
  }

  lemma DeletedKeeps(s: Store, backups: map<Pid, Dir>, p: Pid)
    requires Inv(s) && p in s.phases && s.phases[p].Deleting? && Shrunk(s.backups, backups, p)
    ensures Inv(s.(backups := backups))
  {
    InvFacts(s, p);
    SharedFacts(s);
    hide Inv;
    ShrunkFacts(s.final, s.backups, backups, p);
    KeptWhenDeleted(s, backups, p);
    hide Used, Kept, Dir.Complete, Dir.Sound, FinalSound, Shrunk, Apart;
    assert s.phases[p := Deleting] == s.phases;
    SharedChangeKeeps(s, s.(backups := backups), p, Deleting);
  }

  lemma ShrunkFacts(final: Option<Dir>, before: map<Pid, Dir>, backups: map<Pid, Dir>, p: Pid)
    requires Shrunk(before, backups, p) && Apart(final, before)
    ensures Apart(final, backups) && backups.Keys <= before.Keys
    ensures forall o :: Used(final, backups, o) ==> Used(final, before, o)
    ensures forall q :: q != p && q in before ==> q in backups && backups[q] == before[q]
    ensures p in backups ==> p in before && backups[p].origin == before[p].origin
  {
  }

  lemma KeptWhenDeleted(s: Store, backups: map<Pid, Dir>, p: Pid)
    requires Kept(s.final, s.backups, s.last) && DropsOnlyOld(s.backups, s.phases, s.last)
    requires p in s.phases && s.phases[p].Deleting?
    requires Shrunk(s.backups, backups, p)
    ensures Kept(s.final, backups, s.last)
  {
    if s.last.Some? && s.final != s.last {
      var q :| q in s.backups && s.backups[q] == s.last.value;
      assert q != p;
      assert q in backups && backups[q] == s.last.value;
    }
  }

  lemma StepKeepsInv(s: Store, a: Action)
    requires Inv(s)
    ensures Inv(Step(s, a))
  {
    hide Inv, Advance;
    if a.p in s.phases && a.p in s.requests && !s.phases[a.p].Over? {
      var ph := s.phases[a.p];
      if a.Fail? || a.Crash? {
        FaultKeeps(s, a);
      } else if ph.Deleting? {
        DeletingKeeps(s, a.p, a);
      } else if a.Proceed? {
        if ph.BackUp? {
          BackUpKeeps(s, a.p);
        } else if ph.Swap? {
          SwapKeeps(s, a.p);
        } else if ph.Restore? {
          RestoreKeeps(s, a.p);
        } else {
          QuietKeeps(s, a.p);
        }
      }
    }
  }

  lemma {:induction false} RunKeepsInv(s: Store, actions: seq<Action>)
    requires Inv(s)
    ensures Inv(Run(s, actions))
    decreases |actions|
  {
    hide Inv;
    if actions != [] {
      StepKeepsInv(s, actions[0]);
      RunKeepsInv(Step(s, actions[0]), actions[1..]);
    }
  }

  // ---- what holds in every run ---------------------------------------------------------------

  /** Every directory that counts as original is the one from the start. */
  predicate OriginalsAre(s: Store, o: Origin) {
    && (s.final.Some? && s.final.value.origin.Original? ==> s.final.value.origin == o)
    && (forall p :: p in s.backups && s.backups[p].origin.Original? ==> s.backups[p].origin == o)
    && (forall p :: p in s.staging ==> !s.staging[p].origin.Original?)
  }

  lemma {:induction false} OriginalsStay(s: Store, actions: seq<Action>, o: Origin)
    requires OriginalsAre(s, o)
    ensures OriginalsAre(Run(s, actions), o)
    decreases |actions|
  {
    hide OriginalsAre;
    if actions != [] {
      StepKeepsOriginals(s, actions[0], o);
      OriginalsStay(Step(s, actions[0]), actions[1..], o);
    }
  }

  lemma StepKeepsOriginals(s: Store, a: Action, o: Origin)
    requires OriginalsAre(s, o)
    ensures OriginalsAre(Step(s, a), o)
  {
    if a.Proceed? && a.p in s.phases && a.p in s.requests {
      AdvanceKeepsOriginals(s, a.p, o);
      hide Advance, OriginalsAre;
    } else {
      hide Advance;
    }
  }

  lemma AdvanceKeepsOriginals(s: Store, p: Pid, o: Origin)
    requires OriginalsAre(s, o) && p in s.phases && p in s.requests
    ensures OriginalsAre(Advance(s, p), o)
  {
    if Moves(s.phases[p]) {
      MoveKeepsOriginals(s, p, o);
    } else {
      QuietKeepsOriginals(s, p, o);
    }
    hide OriginalsAre, Advance;
  }

  lemma MoveKeepsOriginals(s: Store, p: Pid, o: Origin)
    requires OriginalsAre(s, o) && p in s.phases && p in s.requests && Moves(s.phases[p])
    ensures OriginalsAre(Advance(s, p), o)
  {
    hide Request.Matches, Request.Stamp, Dir.Complete;
  }

  lemma QuietKeepsOriginals(s: Store, p: Pid, o: Origin)
    requires OriginalsAre(s, o) && p in s.phases && p in s.requests && !Moves(s.phases[p])
    ensures OriginalsAre(Advance(s, p), o)
  {
    QuietFrame(s, p);
    hide Advance, Moves;
  }

  lemma QuietFrame(s: Store, p: Pid)
    requires p in s.phases && p in s.requests && !Moves(s.phases[p])
    ensures var v := Advance(s, p);
            && v.final == s.final && v.backups == s.backups
            && (forall q :: q in v.staging ==> (q in s.staging && v.staging[q] == s.staging[q]) || v.staging[q].origin == Staged(p))
  {
    if s.phases[p].Stage? || s.phases[p].Extract? || s.phases[p].Seal? {
    } else {
      AskingFrame(s, p);
      hide Advance;
    }
  }

  lemma AskingFrame(s: Store, p: Pid)
    requires p in s.phases && p in s.requests && !Moves(s.phases[p])
    requires !s.phases[p].Stage? && !s.phases[p].Extract? && !s.phases[p].Seal?
    ensures var v := Advance(s, p);
            v.final == s.final && v.backups == s.backups && (v.staging == s.staging || v.staging == s.staging - {p})
  {
    hide Request.Matches;
  }

  /** For any number of installers, interleaved, failing and crashing anywhere: what is at the final
      path is complete, or is what was there before any of them ran, untouched. */
  lemma FinalIsAlwaysSound(s: Store, actions: seq<Action>)
    requires Initial(s)
    ensures var v := Run(s, actions); v.final.None? || v.final.value.Complete() || v.final == s.final
  {
    InitialIsInv(s);
    RunKeepsInv(s, actions);
    var o := if s.final.Some? then s.final.value.origin else Leftover(0);
    OriginalsStay(s, actions, o);
  }

  /** Once an environment is installed, the latest one installed is there, whole, at the final path or
      in some installer's backup, for good. */
  lemma InstalledIsKeptForGood(s: Store, actions: seq<Action>)
    requires Inv(s) && s.last.Some?
    ensures var v := Run(s, actions);
            v.last.Some? && v.last.value.Complete()
            && (v.final == v.last || exists p :: p in v.backups && v.backups[p] == v.last.value)
  {
    RunKeepsInv(s, actions);
    InstalledStaysInstalled(s, actions);
  }

  lemma {:induction false} InstalledStaysInstalled(s: Store, actions: seq<Action>)
    requires s.last.Some?
    ensures Run(s, actions).last.Some?
    decreases |actions|
  {
    if actions != [] {
      assert Step(s, actions[0]).last.Some?;
      InstalledStaysInstalled(Step(s, actions[0]), actions[1..]);
    }
  }

  // ---- the gap while one directory is swapped for another ------------------------------------

  /** The final path is there, or somebody holds its directory and has yet to put one back. */
  predicate Bridged(s: Store) {
    s.final.Some? || exists p :: p in s.phases && HoldsBackup(s.phases[p])
  }

  /** A crash while holding the backup, or an error while putting it back. */
  predicate LosesBridge(s: Store, a: Action) {
    && a.p in s.phases && HoldsBackup(s.phases[a.p])
    && (a.Crash? || (a.Fail? && !s.phases[a.p].Swap?))
  }

  lemma StepKeepsBridge(s: Store, a: Action)
    requires Inv(s) && Bridged(s) && !LosesBridge(s, a)
    ensures Bridged(Step(s, a))
  {
    hide Inv, HoldsBackup, LosesBridge, Step;
    var v := Step(s, a);
    if v.final.None? && v != s {
      if s.final.Some? {
        OnlyBackUpOpensGap(s, a);
        assert HoldsBackup(Swap(true)) by { SwapHolds(); }
      } else {
        var p :| p in s.phases && HoldsBackup(s.phases[p]);
        if p == a.p {
          HolderKeepsBridge(s, a);
        } else {
          OtherStepLeavesAlone(s, a, p);
        }
      }
    }
  }

  lemma SwapHolds()
    ensures HoldsBackup(Swap(true))
  {
  }

  lemma OnlyBackUpOpensGap(s: Store, a: Action)
    requires s.final.Some? && Step(s, a).final.None?
    ensures a.p in Step(s, a).phases && Step(s, a).phases[a.p] == Swap(true)
  {
  }

  lemma HolderKeepsBridge(s: Store, a: Action)
    requires Inv(s) && s.final.None? && a.p in s.phases && HoldsBackup(s.phases[a.p]) && !LosesBridge(s, a)
    ensures Bridged(Step(s, a))
  {
    InvFacts(s, a.p);
    if a.Proceed? {
      HolderProceeds(s, a.p);
    }
    hide Inv, Advance, Dir.Complete, Dir.Sound, Bridged;
    var v := Step(s, a);
    StillBridged(v, a.p);
    assert v.final.Some? || (a.p in v.phases && HoldsBackup(v.phases[a.p]));
  }

  lemma HolderProceeds(s: Store, p: Pid)
    requires s.final.None? && p in s.phases && p in s.requests && HoldsBackup(s.phases[p])
    requires p in s.staging && p in s.backups
    ensures Advance(s, p).final.Some? || (p in Advance(s, p).phases && HoldsBackup(Advance(s, p).phases[p]))
  {
    hide Request.Matches;
  }

  lemma StillBridged(v: Store, p: Pid)
    ensures v.final.Some? || (p in v.phases && HoldsBackup(v.phases[p])) ==> Bridged(v)
  {
  }

  ghost predicate NoBridgeLost(s: Store, actions: seq<Action>)
    decreases |actions|
  {
    actions != [] ==> !LosesBridge(s, actions[0]) && NoBridgeLost(Step(s, actions[0]), actions[1..])
  }

  /** Unless an installer crashes while it holds the backup, or fails to put it back, the final path is
      there again whenever all installers are done. */
  lemma {:induction false} GapIsClosed(s: Store, actions: seq<Action>)
    requires Inv(s) && Bridged(s) && NoBridgeLost(s, actions)
    ensures Bridged(Run(s, actions))
    ensures var v := Run(s, actions); (forall p :: p in v.phases ==> v.phases[p].Over?) ==> v.final.Some?
    decreases |actions|
  {
    if actions != [] {
      StepKeepsBridge(s, actions[0]);
      StepKeepsInv(s, actions[0]);
      GapIsClosed(Step(s, actions[0]), actions[1..]);
    }
  }
}
