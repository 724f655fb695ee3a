/** The PRoot argument vector: built by appending, and read back without ambiguity. */
module ProotArgv {
  import opened Wrappers
  import opened PurePaths
  import opened Binds
  import opened LaunchSpec

  /** What the vector says. `killOnExit`: asked for and supported. */
  datatype Guest = Guest(
    binary: string, rootfs: string, rootId: bool, kernelRelease: Option<string>, killOnExit: bool,
    binds: seq<string>, workingDirectory: Option<string>, command: seq<string>)

  const KERNEL_RELEASE := "--kernel-release="

  function BindArgs(binds: seq<string>): seq<string> {
    if binds == [] then [] else ["--bind", binds[0]] + BindArgs(binds[1..])
  }

  function Ending(g: Guest): seq<string> {
    (if g.workingDirectory.Some? then ["--cwd", g.workingDirectory.value] else []) + (["--"] + g.command)
  }

  function Flag(on: bool, arg: string, rest: seq<string>): seq<string> {
    if on then [arg] + rest else rest
  }

  function ReleaseArg(release: Option<string>, rest: seq<string>): seq<string> {
    if release.Some? then [KERNEL_RELEASE + release.value] + rest else rest
  }

  function Argv(g: Guest): seq<string> {
    [g.binary, "--rootfs", g.rootfs]
    + Flag(g.rootId, "--root-id",
        ReleaseArg(g.kernelRelease,
          Flag(g.killOnExit, "--kill-on-exit",
            BindArgs(g.binds) + Ending(g))))
  }

  /** Some(text) that is not empty: what Python's truth test lets through. */
  function Truthy(text: Option<string>): Option<string> {
    if text == Some("") then None else text
  }

  function Texts(binds: seq<Bind>): (texts: seq<string>)
    ensures |texts| == |binds| && forall i :: 0 <= i < |binds| ==> texts[i] == Text(binds[i])
  {
    seq(|binds|, i requires 0 <= i < |binds| => Text(binds[i]))
  }

  /** The guest an accepted specification describes. */
  function GuestOf(v: Spec, binary: string, supportsKillOnExit: bool): Guest {
    Guest(binary, v.rootfs, v.rootId, Truthy(v.kernelRelease), v.killOnExit && supportsKillOnExit,
          Texts(v.binds), Truthy(v.workingDirectory), v.command)
  }

  lemma {:induction false} BindArgsSnoc(binds: seq<string>, b: string)
    ensures BindArgs(binds + [b]) == BindArgs(binds) + ["--bind", b]
  {
    if binds == [] {
      assert [b][1..] == [];
    } else {
      assert (binds + [b])[1..] == binds[1..] + [b];
      BindArgsSnoc(binds[1..], b);
    }
  }

  /** The loop of build_proot_argv over the binds; each is validated once more. */
  method ExtendWithBinds(fs: Files, start: seq<string>, binds: seq<Bind>) returns (argv: seq<string>)
    requires forall i :: 0 <= i < |binds| ==> Binds.Validate(fs, binds[i]) == Success(binds[i])
    ensures argv == start + BindArgs(Texts(binds))
  {
    hide Binds.Validate;
    ghost var texts := Texts(binds);
    argv := start;
    var i := 0;
    while i < |binds|
      invariant 0 <= i <= |binds|
      invariant argv == start + BindArgs(texts[..i])
    {
      var text := Serialize(fs, binds[i]);
      argv := argv + ["--bind", text.value];
      BindArgsSnoc(texts[..i], text.value);
      assert texts[..i + 1] == texts[..i] + [text.value];
      i := i + 1;
    }
    assert texts[..i] == texts;
  }

  /** The options of build_proot_argv, up to the binds. */
  method BuildStart(binary: string, v: Spec, supportsKillOnExit: bool) returns (argv: seq<string>)
    ensures argv == Start(GuestOf(v, binary, supportsKillOnExit))
    ensures var release := v.kernelRelease.Some? && v.kernelRelease.value != "";
            argv == [binary, "--rootfs", v.rootfs] + (if v.rootId then ["--root-id"] else [])
                    + (if release then ["--kernel-release=" + v.kernelRelease.value] else [])
                    + (if v.killOnExit && supportsKillOnExit then ["--kill-on-exit"] else [])
  {
    ghost var g := GuestOf(v, binary, supportsKillOnExit);
    hide Texts;
    argv := [binary, "--rootfs", v.rootfs];
    ghost var a := argv;
    if v.rootId {
      argv := argv + ["--root-id"];
    }
    assert argv == a + (if g.rootId then ["--root-id"] else []);
    ghost var b := argv;
    if v.kernelRelease.Some? && v.kernelRelease.value != "" {
      argv := argv + [KERNEL_RELEASE + v.kernelRelease.value];
    }
    assert argv == b + (if g.kernelRelease.Some? then [KERNEL_RELEASE + g.kernelRelease.value] else []);
    ghost var c := argv;
    if v.killOnExit && supportsKillOnExit {
      argv := argv + ["--kill-on-exit"];
    }
    assert argv == c + (if g.killOnExit then ["--kill-on-exit"] else []);
  }

  /** Its last options, and the command. */
  method BuildEnd(start: seq<string>, v: Spec, ghost g: Guest) returns (argv: seq<string>)
    requires g.workingDirectory == Truthy(v.workingDirectory) && g.command == v.command
    ensures argv == start + Ending(g)
  {
    argv := start;
    if v.workingDirectory.Some? && v.workingDirectory.value != "" {
      argv := argv + ["--cwd", v.workingDirectory.value];
    }
    argv := argv + (["--"] + v.command);
  }

  /** What a vector says is what the specification asked for: the resolved root file system, the root id,
      the release without its blanks if anything is left of it, kill-on-exit if it is supported too, each
      bind's resolved host and normalized guest in order, the working directory, and the command. */
  predicate AsAsked(fs: Files, binary: string, s: Spec, supportsKillOnExit: bool, g: Guest) {
    && g.binary == binary && fs.resolve(s.rootfs) == Some(g.rootfs) && g.rootId == s.rootId && g.command == s.command
    && (g.killOnExit <==> s.killOnExit && supportsKillOnExit)
    && (g.kernelRelease.Some? <==> s.kernelRelease.Some? && exists c :: c in s.kernelRelease.value && !IsSpace(c))
    && (g.kernelRelease.Some? ==>
          exists i :: 0 <= i <= |s.kernelRelease.value| && StripsAt(s.kernelRelease.value, g.kernelRelease.value, i))
    && (g.workingDirectory.Some? <==> s.workingDirectory.Some? && s.workingDirectory.value != "")
    && (g.workingDirectory.Some? ==> g.workingDirectory == s.workingDirectory)
    && |g.binds| == |s.binds|
    && forall i :: 0 <= i < |g.binds| ==>
         var b := s.binds[i];
         fs.resolve(b.host).Some?
         && g.binds[i] == fs.resolve(b.host).value + ":" + Parse(b.guest).Text() + if b.noDereference then "!" else ""
  }

  lemma DescribedAsAsked(fs: Files, binary: string, s: Spec, supports: bool)
    requires LaunchSpec.Validate(fs, s).Success?
    ensures AsAsked(fs, binary, s, supports, GuestOf(LaunchSpec.Validate(fs, s).value, binary, supports))
  {
    hide LaunchSpec.Validate, Release, StripsAt, Parse, CheckBinds, CheckEnvironment, LastSays, IsSpace;
    ValidatedFields(fs, s, "", "");
    ValidatedParts(fs, s);
    TruthyRelease(s.kernelRelease);
  }

  /** A release is passed on when something is left of it without its blanks. */
  lemma TruthyRelease(given: Option<string>)
    ensures Truthy(Release(given)).Some? <==> given.Some? && exists c :: c in given.value && !IsSpace(c)
    ensures Truthy(Release(given)).Some? ==> Truthy(Release(given)) == Release(given)
  {
    ReleaseFacts(given);
    hide Strip, IsSpace;
  }

  /** build_proot_argv. On a specification that validates, over an unchanging file system, it answers
      the vector of the guest described, which reads back as what the specification asked for; otherwise
      validation's complaint. */
  method BuildProotArgv(fs: Files, binary: string, spec: Spec, supportsKillOnExit: bool) returns (r: Result<seq<string>>)
    requires fs.Valid()
    ensures r == match LaunchSpec.Validate(fs, spec)
                 case Failure(reason) => Failure(reason)
                 case Success(v) => Success(Argv(GuestOf(v, binary, supportsKillOnExit)))
    ensures r.Success? ==> Decode(r.value).Some? && AsAsked(fs, binary, spec, supportsKillOnExit, Decode(r.value).value)
  {
    hide *;
    var checked := ValidateSpec(fs, spec);
    if checked.Failure? {
      return Failure(checked.reason);
    }
    AcceptedGuestsAreDistinct(fs, spec);
    var validated := checked.value;
    ghost var g := GuestOf(validated, binary, supportsKillOnExit);
    GuestEnds(validated, binary, supportsKillOnExit);
    var argv := BuildStart(binary, validated, supportsKillOnExit);
    argv := ExtendWithBinds(fs, argv, validated.binds);
    argv := BuildEnd(argv, validated, g);
    ArgvParts(g);
    ArgvDecodes(g);
    DescribedAsAsked(fs, binary, spec, supportsKillOnExit);
    r := Success(argv);
  }

  lemma GuestEnds(v: Spec, binary: string, supports: bool)
    ensures var g := GuestOf(v, binary, supports);
            g.binds == Texts(v.binds) && g.workingDirectory == Truthy(v.workingDirectory) && g.command == v.command
  {
  }

  /** The vector up to the binds. */
  function Start(g: Guest): seq<string> {
    [g.binary, "--rootfs", g.rootfs] + (if g.rootId then ["--root-id"] else [])
    + (if g.kernelRelease.Some? then [KERNEL_RELEASE + g.kernelRelease.value] else [])
    + (if g.killOnExit then ["--kill-on-exit"] else [])
  }

  lemma ArgvParts(g: Guest)
    ensures Argv(g) == Start(g) + BindArgs(g.binds) + Ending(g)
  {
    hide BindArgs, Ending;
    var tail := BindArgs(g.binds) + Ending(g);
    assert Argv(g) == Start(g) + tail by { StartThen(g, tail); }
    hide Start, Argv;
    assert Start(g) + tail == Start(g) + BindArgs(g.binds) + Ending(g);
  }

  lemma StartThen(g: Guest, tail: seq<string>)
    ensures [g.binary, "--rootfs", g.rootfs]
            + Flag(g.rootId, "--root-id", ReleaseArg(g.kernelRelease, Flag(g.killOnExit, "--kill-on-exit", tail))) == Start(g) + tail
  {
    var k := Flag(g.killOnExit, "--kill-on-exit", tail);
    assert k == (if g.killOnExit then ["--kill-on-exit"] else []) + tail;
    var r := ReleaseArg(g.kernelRelease, k);
    assert r == (if g.kernelRelease.Some? then [KERNEL_RELEASE + g.kernelRelease.value] else []) + k;
    assert Flag(g.rootId, "--root-id", r) == (if g.rootId then ["--root-id"] else []) + r;
  }

  // ---- reading it back -----------------------------------------------------------------------

  predicate StartsWith(args: seq<string>, arg: string) {
    args != [] && args[0] == arg
  }

  /** The binds at the front, and what follows them. */
  function DecodeBinds(args: seq<string>): (r: (seq<string>, seq<string>))
    ensures |r.1| <= |args|
  {
    if |args| >= 2 && args[0] == "--bind" then
      var (binds, rest) := DecodeBinds(args[2..]);
      ([args[1]] + binds, rest)
    else ([], args)
  }

  function DecodeEnding(args: seq<string>): Option<(Option<string>, seq<string>)> {
    if |args| >= 3 && args[0] == "--cwd" && args[2] == "--" then Some((Some(args[1]), args[3..]))
    else if StartsWith(args, "--") then Some((None, args[1..]))
    else None
  }

  function DecodeFlag(args: seq<string>, arg: string): (bool, seq<string>) {
    if StartsWith(args, arg) then (true, args[1..]) else (false, args)
  }

  function DecodeRelease(args: seq<string>): (Option<string>, seq<string>) {
    if args != [] && KERNEL_RELEASE <= args[0] then (Some(args[0][|KERNEL_RELEASE|..]), args[1..]) else (None, args)
  }

  /** Option by option, left to right. */
  function Decode(argv: seq<string>): Option<Guest> {
    if |argv| < 3 || argv[1] != "--rootfs" then None
    else
      var (rootId, a) := DecodeFlag(argv[3..], "--root-id");
      var (release, b) := DecodeRelease(a);
      var (kill, c) := DecodeFlag(b, "--kill-on-exit");
      var (binds, d) := DecodeBinds(c);
      match DecodeEnding(d)
      case None => None
      case Some(ending) => Some(Guest(argv[0], argv[2], rootId, release, kill, binds, ending.0, ending.1))
  }

  lemma FlagDecodes(on: bool, arg: string, rest: seq<string>)
    requires !StartsWith(rest, arg)
    ensures DecodeFlag(Flag(on, arg, rest), arg) == (on, rest)
  {
  }

  lemma ReleaseDecodes(release: Option<string>, rest: seq<string>)
    requires rest != [] && !(KERNEL_RELEASE <= rest[0])
    ensures DecodeRelease(ReleaseArg(release, rest)) == (release, rest)
    ensures !StartsWith(ReleaseArg(release, rest), "--root-id") || StartsWith(rest, "--root-id")
  {
    if release.Some? {
      assert (KERNEL_RELEASE + release.value)[2] == 'k';
    }
  }

  lemma {:induction false} BindsDecode(binds: seq<string>, ending: seq<string>)
    requires !StartsWith(ending, "--bind")
    ensures DecodeBinds(BindArgs(binds) + ending) == (binds, ending)
  {
    var args := BindArgs(binds) + ending;
    if binds == [] {
      assert args == ending;
    } else {
      assert args[2..] == BindArgs(binds[1..]) + ending;
      BindsDecode(binds[1..], ending);
      assert binds == [binds[0]] + binds[1..];
    }
  }

  lemma EndingDecodes(g: Guest)
    ensures DecodeEnding(Ending(g)) == Some((g.workingDirectory, g.command)) && !StartsWith(Ending(g), "--bind")
    ensures Ending(g) != [] && (Ending(g)[0] == "--cwd" || Ending(g)[0] == "--")
  {
    var args := Ending(g);
    if g.workingDirectory.Some? {
      assert args[3..] == g.command;
    } else {
      assert args == ["--"] + g.command;
    }
  }

  /** Every argument vector reads back as the one guest it was built for. */
  lemma ArgvDecodes(g: Guest)
    ensures Decode(Argv(g)) == Some(g)
  {
    var e := BindArgs(g.binds) + Ending(g);
    var d := Flag(g.killOnExit, "--kill-on-exit", e);
    var c := ReleaseArg(g.kernelRelease, d);
    var b := Flag(g.rootId, "--root-id", c);
    EndingDecodes(g);
    BindsDecode(g.binds, Ending(g));
    FirstOfBinds(g);
    assert !StartsWith(e, "--kill-on-exit");
    FlagDecodes(g.killOnExit, "--kill-on-exit", e);
    assert d != [] && !(KERNEL_RELEASE <= d[0]) && !StartsWith(d, "--root-id") by { FirstOfFlag(g.killOnExit, e); }
    ReleaseDecodes(g.kernelRelease, d);
    FlagDecodes(g.rootId, "--root-id", c);
    assert Argv(g)[3..] == b;
    hide Ending, DecodeEnding, BindArgs, DecodeBinds, DecodeFlag, DecodeRelease, Flag, ReleaseArg;
  }

  lemma FirstOfFlag(on: bool, e: seq<string>)
    requires e != [] && (e[0] == "--bind" || e[0] == "--cwd" || e[0] == "--")
    ensures var d := Flag(on, "--kill-on-exit", e);
            d != [] && !(KERNEL_RELEASE <= d[0]) && !StartsWith(d, "--root-id")
  {
    var d := Flag(on, "--kill-on-exit", e);
    assert |KERNEL_RELEASE| == 17 && |d[0]| < 17;
  }

  lemma FirstOfBinds(g: Guest)
    ensures var e := BindArgs(g.binds) + Ending(g); e != [] && (e[0] == "--bind" || e[0] == Ending(g)[0])
  {
  }

  // ---- what that gives -----------------------------------------------------------------------

  /** Two accepted launches with the same vector agree on all it is to carry: root file system, root
      id, kernel release, effective kill-on-exit, binds in order, working directory and command. */
  lemma SameArgvSameGuest(v: Spec, w: Spec, binary: string, other: string, supports: bool, supports': bool)
    requires Argv(GuestOf(v, binary, supports)) == Argv(GuestOf(w, other, supports'))
    ensures GuestOf(v, binary, supports) == GuestOf(w, other, supports')
  {
    ArgvDecodes(GuestOf(v, binary, supports));
    ArgvDecodes(GuestOf(w, other, supports'));
    hide Argv, Decode, GuestOf;
  }

  /** Re-validating never changes the vector, not even when it changes the specification. */
  lemma RevalidationKeepsArgv(fs: Files, s: Spec, binary: string, supports: bool)
    requires fs.Valid() && LaunchSpec.Validate(fs, s).Success?
    ensures var v := LaunchSpec.Validate(fs, s).value;
            && LaunchSpec.Validate(fs, v).Success?
            && GuestOf(LaunchSpec.Validate(fs, v).value, binary, supports) == GuestOf(v, binary, supports)
  {
    RevalidationExactly(fs, s);
    hide LaunchSpec.Validate;
  }

  /** Each bind argument reads back as the validated bind it was made from, under the condition of
      RoundTripExactly: from such a vector the binds themselves are recovered. */
  lemma BindsAreRecovered(fs: Files, s: Spec, i: nat)
    requires fs.Valid() && LaunchSpec.Validate(fs, s).Success? && i < |s.binds|
    ensures var binds := LaunchSpec.Validate(fs, s).value.binds;
            && |binds| == |s.binds|
            && (ParseBind(fs, Texts(binds)[i]) == Success(binds[i]) <==>
                  ':' !in binds[i].host && (binds[i].noDereference || !EndsInBang(binds[i].guest)))
  {
    AcceptedGuestsAreDistinct(fs, s);
    var binds := LaunchSpec.Validate(fs, s).value.binds;
    RoundTripExactly(fs, binds[i]);
    hide LaunchSpec.Validate, ParseBind, EndsInBang;
  }
}
