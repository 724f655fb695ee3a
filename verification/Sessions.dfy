/** Session layout and launch validation: every path a launch names stays inside its own session. */
module Sessions {
  import opened Strings
  import opened Paths
  import opened Wrappers

  /** What the code asks of the file system and of the character tables, at one moment.
      `canon` resolves symbolic links, dots and relative paths. */
  datatype Host = Host(
    canon: string -> string,
    isFile: string -> bool, canExecute: string -> bool, isDirectory: string -> bool, makesDirectory: string -> bool,
    isLetterOrDigit: char -> bool,
    sessionsRoot: string, executableRoots: seq<string>)
  {
    ghost predicate Valid() {
      && (forall s :: IsCanonical(canon(s)))
      && (forall s, t :: canon(s) == t ==> canon(t) == t)
      && !isLetterOrDigit('/') && !isLetterOrDigit('.')
      && IsCanonical(sessionsRoot)
    }

    /** Below the sessions directory a path means what it says. */
    ghost predicate NoLinksBelow(base: seq<string>) {
      forall rest {:trigger base + rest} :: AllComponents(rest) ==> canon(PathString(base + rest)) == PathString(base + rest)
    }
  }

  datatype SessionPaths = SessionPaths(
    sessionId: string, root: string, input: string, tmp: string, output: string, diagnostics: string)

  predicate ValidSessionId(h: Host, id: string) {
    id != "" && forall c :: c in id ==> h.isLetterOrDigit(c) || c == '-' || c == '_'
  }

  function Under(parent: string, child: string): string {
    parent + "/" + child
  }

  /** EtRouteWorkspaceManager.create */
  function Create(h: Host, sessionId: string): Result<SessionPaths> {
    if !ValidSessionId(h, sessionId) then Failure("sessionId") else
    var root := h.canon(Under(h.sessionsRoot, sessionId));
    if !IsWithin(root, h.sessionsRoot) then Failure("session path escaped ETroute sessions root") else
    var input := h.canon(Under(root, "workspace/input"));
    var tmp := h.canon(Under(root, "workspace/tmp"));
    var output := h.canon(Under(root, "workspace/output"));
    var diagnostics := h.canon(Under(root, "diagnostics"));
    if exists dir :: dir in [input, tmp, output, diagnostics] && !h.makesDirectory(dir) && !h.isDirectory(dir)
    then Failure("Unable to create")
    else Success(SessionPaths(sessionId, root, input, tmp, output, diagnostics))
  }

  datatype Launch = Launch(
    executable: string, arguments: seq<string>, environment: map<string, string>,
    workingDirectory: string, stdoutPath: string, stderrPath: string, sessionId: string)

  predicate KeyStart(c: char) { 'A' <= c <= 'Z' || 'a' <= c <= 'z' || c == '_' }
  predicate KeyRest(c: char) { KeyStart(c) || '0' <= c <= '9' }

  predicate ValidKey(key: string) {
    key != "" && KeyStart(key[0]) && forall c :: c in key[1..] ==> KeyRest(c)
  }

  predicate ValidEnvironment(environment: map<string, string>) {
    && |environment| <= 128
    && forall key :: key in environment ==>
         ValidKey(key) && '\0' !in key && '\0' !in environment[key] && |environment[key]| <= 32768
  }

  /** PreparedLaunchValidator.validate for one session. */
  function Validate(h: Host, session: SessionPaths, launch: Launch): Result<Launch> {
    if launch.sessionId != session.sessionId then Failure("PreparedLaunch session mismatch") else
    var executable := h.canon(launch.executable);
    if !h.isFile(executable) then Failure("Executable does not exist") else
    if !h.canExecute(executable) then Failure("Executable is not executable") else
    if !exists r :: r in h.executableRoots && IsWithin(executable, r) then Failure("Executable is outside approved roots") else
    var cwd := h.canon(launch.workingDirectory);
    if !h.isDirectory(cwd) then Failure("Working directory does not exist") else
    if !IsWithin(cwd, session.root) then Failure("Working directory escaped ETroute session") else
    var stdout, stderr := h.canon(launch.stdoutPath), h.canon(launch.stderrPath);
    if !IsWithin(stdout, session.diagnostics) then Failure("stdout must stay under diagnostics") else
    if !IsWithin(stderr, session.diagnostics) then Failure("stderr must stay under diagnostics") else
    if stdout == stderr then Failure("stdout and stderr must use separate files") else
    if !ValidEnvironment(launch.environment) then Failure("environment") else
    Success(launch.(executable := executable, workingDirectory := cwd, stdoutPath := stdout, stderrPath := stderr))
  }

  // ---- what is accepted ----------------------------------------------------------------------

  lemma GuardsPass(h: Host, session: SessionPaths, launch: Launch)
    ensures Validate(h, session, launch).Success? <==>
              && launch.sessionId == session.sessionId
              && h.isFile(h.canon(launch.executable)) && h.canExecute(h.canon(launch.executable))
              && (exists r :: r in h.executableRoots && IsWithin(h.canon(launch.executable), r))
              && h.isDirectory(h.canon(launch.workingDirectory)) && IsWithin(h.canon(launch.workingDirectory), session.root)
              && IsWithin(h.canon(launch.stdoutPath), session.diagnostics)
              && IsWithin(h.canon(launch.stderrPath), session.diagnostics)
              && h.canon(launch.stdoutPath) != h.canon(launch.stderrPath)
              && ValidEnvironment(launch.environment)
  {
    hide IsWithin, ValidEnvironment;
  }

  /** An accepted executable lies below an approved root, component by component. */
  lemma ExecutableIsApproved(h: Host, session: SessionPaths, launch: Launch) returns (root: seq<string>, rest: seq<string>)
    requires h.Valid() && Validate(h, session, launch).Success?
    requires forall r :: r in h.executableRoots ==> IsCanonical(r) && r != "/"
    ensures AllComponents(root + rest) && PathString(root) in h.executableRoots
    ensures Validate(h, session, launch).value.executable == PathString(root + rest)
  {
    var executable := h.canon(launch.executable);
    assert Validate(h, session, launch).value.executable == executable;
    hide Validate;
    GuardsPass(h, session, launch);
    var r :| r in h.executableRoots && IsWithin(executable, r);
    root :| AllComponents(root) && r == PathString(root);
    var path :| AllComponents(path) && executable == PathString(path);
    assert root != [] by { assert PathString([]) == "/"; }
    IsWithinExactly(path, root);
    rest := path[|root|..];
    assert path == root + rest;
  }

  // ---- the session's own directory -----------------------------------------------------------

  lemma SessionIdIsComponent(h: Host, id: string)
    requires h.Valid() && ValidSessionId(h, id)
    ensures Component(id)
  {
    assert id[0] in id;
    assert '.' !in id && '/' !in id;
    assert "."[0] == '.' && ".."[0] == '.';
  }

  lemma ChildPath(base: seq<string>, name: string)
    requires base != []
    ensures Under(PathString(base), name) == "/" + Join(base, '/') + "/" + name
    ensures Under(PathString(base), name) == PathString(base + [name])
  {
    JoinConcat(base, [name], '/');
    assert PathString(base + [name]) == "/" + (Join(base, '/') + ['/'] + name);
  }

  /** Without links below it, the sessions directory gives every valid id its own subdirectory, and the
      escape check never fires. */
  lemma SessionRootIsOwn(h: Host, base: seq<string>, id: string)
    requires h.Valid() && base != [] && AllComponents(base) && h.sessionsRoot == PathString(base)
    requires h.NoLinksBelow(base) && ValidSessionId(h, id)
    ensures AllComponents(base + [id])
    ensures h.canon(Under(h.sessionsRoot, id)) == PathString(base + [id])
    ensures IsWithin(PathString(base + [id]), h.sessionsRoot)
    ensures Create(h, id).Success? ==> Create(h, id).value.root == PathString(base + [id])
  {
    SessionIdIsComponent(h, id);
    ChildPath(base, id);
    assert AllComponents([id]);
    IsWithinExactly(base + [id], base);
  }

  lemma CreatedPaths(h: Host, id: string)
    requires Create(h, id).Success?
    ensures var s := Create(h, id).value;
            && s.sessionId == id && ValidSessionId(h, id)
            && s.root == h.canon(Under(h.sessionsRoot, id)) && IsWithin(s.root, h.sessionsRoot)
            && s.diagnostics == h.canon(Under(s.root, "diagnostics"))
  {
  }

  lemma DiagnosticsIsOwn(h: Host, base: seq<string>, id: string)
    requires h.Valid() && base != [] && AllComponents(base) && h.sessionsRoot == PathString(base)
    requires h.NoLinksBelow(base) && Create(h, id).Success?
    ensures AllComponents(base + [id] + ["diagnostics"])
    ensures Create(h, id).value.diagnostics == PathString(base + [id] + ["diagnostics"])
  {
    CreatedPaths(h, id);
    SessionRootIsOwn(h, base, id);
    hide *;
    var root := base + [id];
    ChildPath(root, "diagnostics");
    DiagnosticsIsComponent();
    LinkFree(h, base, [id, "diagnostics"], root + ["diagnostics"]);
  }

  lemma LinkFree(h: Host, base: seq<string>, rest: seq<string>, path: seq<string>)
    requires h.NoLinksBelow(base) && path == base + rest && AllComponents(path)
    ensures h.canon(PathString(path)) == PathString(path)
  {
    assert AllComponents(rest) by {
      assert forall p :: p in rest ==> p in path;
    }
  }

  lemma DiagnosticsIsComponent()
    ensures Component("diagnostics")
  {
    assert "diagnostics"[0] == 'd';
  }

  lemma WorkspaceNames()
    ensures Component("workspace") && Component("input") && Component("tmp") && Component("output")
  {
    assert "workspace"[0] == 'w' && "input"[0] == 'i' && "tmp"[0] == 't' && "output"[0] == 'o';
  }

  lemma WorkspaceChild(h: Host, base: seq<string>, id: string, name: string)
    requires h.NoLinksBelow(base) && base != [] && AllComponents(base + [id]) && Component("workspace") && Component(name)
    ensures h.canon(Under(PathString(base + [id]), "workspace/" + name)) == PathString(base + [id, "workspace", name])
  {
    hide Component;
    var root := base + [id];
    ChildPath(root, "workspace");
    ChildPath(root + ["workspace"], name);
    assert Under(PathString(root), "workspace/" + name) == Under(Under(PathString(root), "workspace"), name);
    assert root + ["workspace"] + [name] == base + [id, "workspace", name];
    assert AllComponents(base + [id, "workspace", name]);
    LinkFree(h, base, [id, "workspace", name], base + [id, "workspace", name]);
  }

  /** The layout of a created session, when nothing below the sessions directory is a link. */
  lemma CreatedLayout(h: Host, base: seq<string>, id: string)
    requires h.Valid() && base != [] && AllComponents(base) && h.sessionsRoot == PathString(base)
    requires h.NoLinksBelow(base) && Create(h, id).Success?
    ensures var s := Create(h, id).value;
            && s.sessionId == id && s.root == PathString(base + [id])
            && s.input == PathString(base + [id, "workspace", "input"]) && s.tmp == PathString(base + [id, "workspace", "tmp"])
            && s.output == PathString(base + [id, "workspace", "output"])
            && s.diagnostics == PathString(base + [id] + ["diagnostics"])
  {
    hide *;
    CreatedPaths(h, id);
    CreatedWorkspace(h, id);
    SessionRootIsOwn(h, base, id);
    DiagnosticsIsOwn(h, base, id);
    WorkspaceNames();
    WorkspaceChild(h, base, id, "input");
    WorkspaceChild(h, base, id, "tmp");
    WorkspaceChild(h, base, id, "output");
    assert "workspace/" + "input" == "workspace/input" && "workspace/" + "tmp" == "workspace/tmp";
    assert "workspace/" + "output" == "workspace/output";
  }

  lemma CreatedWorkspace(h: Host, id: string)
    requires Create(h, id).Success?
    ensures var s := Create(h, id).value;
            && s.input == h.canon(Under(s.root, "workspace/input")) && s.tmp == h.canon(Under(s.root, "workspace/tmp"))
            && s.output == h.canon(Under(s.root, "workspace/output"))
  {
  }

  /** Without links below the sessions directory a session is created exactly when its id is not empty and
      made of letters, digits, "-" and "_", and each of its four directories can be made or is there. */
  lemma CreatedExactly(h: Host, base: seq<string>, id: string)
    requires h.Valid() && base != [] && AllComponents(base) && h.sessionsRoot == PathString(base) && h.NoLinksBelow(base)
    ensures Create(h, id).Success? <==>
              && id != "" && (forall c :: c in id ==> h.isLetterOrDigit(c) || c == '-' || c == '_')
              && (forall below :: below in [["workspace", "input"], ["workspace", "tmp"], ["workspace", "output"], ["diagnostics"]] ==>
                    var dir := PathString(base + [id] + below); h.makesDirectory(dir) || h.isDirectory(dir))
  {
    hide *;
    BadIdIsRefused(h, id);
    if ValidSessionId(h, id) {
      var root := base + [id];
      SessionRootIsOwn(h, base, id);
      WorkspaceNames();
      DiagnosticsIsComponent();
      WorkspaceChild(h, base, id, "input");
      WorkspaceChild(h, base, id, "tmp");
      WorkspaceChild(h, base, id, "output");
      DiagnosticsChild(h, base, id);
      CreationSteps(h, id, PathString(root));
      assert "workspace/" + "input" == "workspace/input" && "workspace/" + "tmp" == "workspace/tmp";
      assert "workspace/" + "output" == "workspace/output";
      assert root + ["workspace", "input"] == base + [id, "workspace", "input"];
      assert root + ["workspace", "tmp"] == base + [id, "workspace", "tmp"];
      assert root + ["workspace", "output"] == base + [id, "workspace", "output"];
      var dirs := [["workspace", "input"], ["workspace", "tmp"], ["workspace", "output"], ["diagnostics"]];
      assert dirs[0] in dirs && dirs[1] in dirs && dirs[2] in dirs && dirs[3] in dirs;
    }
  }

  lemma BadIdIsRefused(h: Host, id: string)
    ensures Create(h, id).Success? ==> ValidSessionId(h, id)
    ensures ValidSessionId(h, id) <==> id != "" && forall c :: c in id ==> h.isLetterOrDigit(c) || c == '-' || c == '_'
  {
  }

  lemma DiagnosticsChild(h: Host, base: seq<string>, id: string)
    requires h.NoLinksBelow(base) && base != [] && AllComponents(base + [id]) && Component("diagnostics")
    ensures h.canon(Under(PathString(base + [id]), "diagnostics")) == PathString(base + [id] + ["diagnostics"])
  {
    hide Component;
    var root := base + [id];
    ChildPath(root, "diagnostics");
    assert root + ["diagnostics"] == base + [id, "diagnostics"];
    assert AllComponents(base + [id, "diagnostics"]);
    LinkFree(h, base, [id, "diagnostics"], root + ["diagnostics"]);
  }

  lemma CreationSteps(h: Host, id: string, root: string)
    requires ValidSessionId(h, id) && root == h.canon(Under(h.sessionsRoot, id)) && IsWithin(root, h.sessionsRoot)
    ensures Create(h, id).Success? <==>
              && (var d := h.canon(Under(root, "workspace/input")); h.makesDirectory(d) || h.isDirectory(d))
              && (var d := h.canon(Under(root, "workspace/tmp")); h.makesDirectory(d) || h.isDirectory(d))
              && (var d := h.canon(Under(root, "workspace/output")); h.makesDirectory(d) || h.isDirectory(d))
              && (var d := h.canon(Under(root, "diagnostics")); h.makesDirectory(d) || h.isDirectory(d))
  {
    var dirs := [h.canon(Under(root, "workspace/input")), h.canon(Under(root, "workspace/tmp")),
                 h.canon(Under(root, "workspace/output")), h.canon(Under(root, "diagnostics"))];
    hide IsWithin, Under, ValidSessionId;
    assert dirs[0] in dirs && dirs[1] in dirs && dirs[2] in dirs && dirs[3] in dirs;
  }

  // ---- no path of one session is inside another ----------------------------------------------

  /** Nothing is inside the roots of two different sessions. */
  lemma SessionsAreDisjoint(path: seq<string>, base: seq<string>, a: string, b: string)
    requires AllComponents(path) && AllComponents(base) && Component(a) && Component(b) && a != b
    ensures !(IsWithin(PathString(path), PathString(base + [a])) && IsWithin(PathString(path), PathString(base + [b])))
  {
    IsWithinExactly(path, base + [a]);
    IsWithinExactly(path, base + [b]);
    if base + [a] <= path {
      assert path[|base|] == (base + [a])[|base|] == a;
    }
    if base + [b] <= path {
      assert path[|base|] == (base + [b])[|base|] == b;
    }
  }

  lemma InsideDiagnosticsIsInsideRoot(path: seq<string>, root: seq<string>)
    requires AllComponents(path) && AllComponents(root + ["diagnostics"]) && root != []
    requires IsWithin(PathString(path), PathString(root + ["diagnostics"]))
    ensures IsWithin(PathString(path), PathString(root))
  {
    IsWithinExactly(path, root + ["diagnostics"]);
    assert AllComponents(root) by {
      assert forall p :: p in root ==> p in root + ["diagnostics"];
    }
    IsWithinExactly(path, root);
    assert root <= root + ["diagnostics"];
  }

  lemma ValidatedPaths(h: Host, session: SessionPaths, launch: Launch)
    requires h.Valid() && Validate(h, session, launch).Success?
    ensures var l := Validate(h, session, launch).value;
            && IsCanonical(l.workingDirectory) && IsCanonical(l.stdoutPath) && IsCanonical(l.stderrPath)
            && IsWithin(l.workingDirectory, session.root)
            && IsWithin(l.stdoutPath, session.diagnostics) && IsWithin(l.stderrPath, session.diagnostics)
  {
  }

  /** A launch accepted for one session has its working directory and both output files inside that
      session, and none of them inside a session with another id. */
  lemma AcceptedLaunchStaysInItsSession(h: Host, base: seq<string>, id: string, other: string, launch: Launch)
    requires h.Valid() && base != [] && AllComponents(base) && h.sessionsRoot == PathString(base)
    requires h.NoLinksBelow(base) && ValidSessionId(h, other) && other != id
    requires Create(h, id).Success? && Validate(h, Create(h, id).value, launch).Success?
    ensures var l := Validate(h, Create(h, id).value, launch).value;
            forall p :: p in [l.workingDirectory, l.stdoutPath, l.stderrPath] ==>
              IsWithin(p, PathString(base + [id])) && !IsWithin(p, PathString(base + [other]))
  {
    hide *;
    var l := Validate(h, Create(h, id).value, launch).value;
    ValidatedPaths(h, Create(h, id).value, launch);
    CreatedPaths(h, id);
    SessionRootIsOwn(h, base, id);
    DiagnosticsIsOwn(h, base, id);
    SessionIdIsComponent(h, id);
    SessionIdIsComponent(h, other);
    assert base + [id] + [] == base + [id];
    StaysApart(base, id, other, l.workingDirectory, []);
    StaysApart(base, id, other, l.stdoutPath, ["diagnostics"]);
    StaysApart(base, id, other, l.stderrPath, ["diagnostics"]);
  }

  lemma StaysApart(base: seq<string>, id: string, other: string, p: string, below: seq<string>)
    requires AllComponents(base + [id]) && Component(other) && other != id
    requires below == [] || (below == ["diagnostics"] && AllComponents(base + [id] + below))
    requires IsCanonical(p) && IsWithin(p, PathString(base + [id] + below))
    ensures IsWithin(p, PathString(base + [id])) && !IsWithin(p, PathString(base + [other]))
  {
    var path :| AllComponents(path) && p == PathString(path);
    assert base + [id] + [] == base + [id];
    assert id in base + [id] && AllComponents(base) by {
      assert forall q :: q in base ==> q in base + [id];
    }
    if below != [] {
      InsideDiagnosticsIsInsideRoot(path, base + [id]);
    }
    SessionsAreDisjoint(path, base, id, other);
  }

  // ---- acceptance, component by component ----------------------------------------------------

  /** Some approved root's components begin the path's. */
  ghost predicate BelowApproved(h: Host, path: seq<string>) {
    exists root :: AllComponents(root) && PathString(root) in h.executableRoots && root <= path
  }

  lemma ApprovedExactly(h: Host, path: seq<string>)
    requires AllComponents(path) && forall r :: r in h.executableRoots ==> IsCanonical(r) && r != "/"
    ensures (exists r :: r in h.executableRoots && IsWithin(PathString(path), r)) <==> BelowApproved(h, path)
  {
    hide IsWithin;
    assert PathString([]) == "/";
    if r :| r in h.executableRoots && IsWithin(PathString(path), r) {
      var root :| AllComponents(root) && r == PathString(root);
      IsWithinExactly(path, root);
    }
    if BelowApproved(h, path) {
      var root :| AllComponents(root) && PathString(root) in h.executableRoots && root <= path;
      IsWithinExactly(path, root);
      assert IsWithin(PathString(path), PathString(root));
    }
  }

  /** With nothing below the sessions directory a link: a launch is accepted for a session exactly when it
      is for that session, its executable is an executable file below an approved root, its working
      directory is a directory below the session's own, its output files are two different ones below the
      session's diagnostics, and its environment is valid; "below" being a matter of components. */
  lemma AcceptedExactly(h: Host, base: seq<string>, id: string, launch: Launch,
                        executable: seq<string>, cwd: seq<string>, stdout: seq<string>, stderr: seq<string>)
    requires h.Valid() && base != [] && AllComponents(base) && h.sessionsRoot == PathString(base)
    requires h.NoLinksBelow(base) && Create(h, id).Success?
    requires forall r :: r in h.executableRoots ==> IsCanonical(r) && r != "/"
    requires AllComponents(executable) && AllComponents(cwd) && AllComponents(stdout) && AllComponents(stderr)
    requires h.canon(launch.executable) == PathString(executable) && h.canon(launch.workingDirectory) == PathString(cwd)
    requires h.canon(launch.stdoutPath) == PathString(stdout) && h.canon(launch.stderrPath) == PathString(stderr)
    ensures Validate(h, Create(h, id).value, launch).Success? <==>
              && launch.sessionId == id
              && h.isFile(PathString(executable)) && h.canExecute(PathString(executable)) && BelowApproved(h, executable)
              && h.isDirectory(PathString(cwd)) && base + [id] <= cwd
              && base + [id] + ["diagnostics"] <= stdout && base + [id] + ["diagnostics"] <= stderr && stdout != stderr
              && ValidEnvironment(launch.environment)
  {
    hide *;
    var session := Create(h, id).value;
    CreatedPaths(h, id);
    SessionRootIsOwn(h, base, id);
    DiagnosticsIsOwn(h, base, id);
    GuardsPass(h, session, launch);
    ApprovedExactly(h, executable);
    IsWithinExactly(cwd, base + [id]);
    IsWithinExactly(stdout, base + [id] + ["diagnostics"]);
    IsWithinExactly(stderr, base + [id] + ["diagnostics"]);
    DifferentPaths(stdout, stderr);
  }

  /** An environment is valid when it has at most 128 entries, each key is an identifier of ASCII letters,
      digits and "_" that does not begin with a digit, and each value has at most 32768 characters and no
      NUL. */
  lemma ValidEnvironmentExactly(environment: map<string, string>)
    ensures ValidEnvironment(environment) <==>
              && |environment| <= 128
              && forall key :: key in environment ==>
                   && |key| >= 1 && !('0' <= key[0] <= '9')
                   && (forall i :: 0 <= i < |key| ==>
                         'a' <= key[i] <= 'z' || 'A' <= key[i] <= 'Z' || '0' <= key[i] <= '9' || key[i] == '_')
                   && |environment[key]| <= 32768 && forall i :: 0 <= i < |environment[key]| ==> environment[key][i] != '\0'
  {
    forall key | key in environment
      ensures ValidKey(key) <==>
                && |key| >= 1 && !('0' <= key[0] <= '9')
                && (forall i :: 0 <= i < |key| ==>
                      'a' <= key[i] <= 'z' || 'A' <= key[i] <= 'Z' || '0' <= key[i] <= '9' || key[i] == '_')
    {
      ValidKeyExactly(key);
    }
    hide ValidKey;
    assert forall s: string :: '\0' !in s <==> forall i :: 0 <= i < |s| ==> s[i] != '\0';
  }

  lemma ValidKeyExactly(key: string)
    ensures ValidKey(key) <==>
              && |key| >= 1 && !('0' <= key[0] <= '9')
              && (forall i :: 0 <= i < |key| ==>
                    'a' <= key[i] <= 'z' || 'A' <= key[i] <= 'Z' || '0' <= key[i] <= '9' || key[i] == '_')
  {
    if key != "" {
      var rest := key[1..];
      assert (forall c :: c in rest ==> KeyRest(c)) <==> forall i :: 0 <= i < |rest| ==> KeyRest(rest[i]);
      assert forall i :: 0 <= i < |rest| ==> rest[i] == key[i + 1];
      assert forall i :: 0 < i < |key| ==> key[i] == rest[i - 1];
    }
  }

  lemma DifferentPaths(a: seq<string>, b: seq<string>)
    requires AllComponents(a) && AllComponents(b)
    ensures PathString(a) == PathString(b) <==> a == b
  {
    if PathString(a) == PathString(b) {
      PathStringInjective(a, b);
    }
  }

  /** Validation changes nothing the second time, and never changes anything but the four paths. */
  lemma ValidateIsIdempotent(h: Host, session: SessionPaths, launch: Launch)
    requires h.Valid() && Validate(h, session, launch).Success?
    ensures var l := Validate(h, session, launch).value;
            && Validate(h, session, l) == Success(l)
            && l.arguments == launch.arguments && l.environment == launch.environment && l.sessionId == session.sessionId
            && l.stdoutPath != l.stderrPath
  {
    var l := Validate(h, session, launch).value;
    assert h.canon(l.executable) == l.executable && h.canon(l.workingDirectory) == l.workingDirectory;
    assert h.canon(l.stdoutPath) == l.stdoutPath && h.canon(l.stderrPath) == l.stderrPath;
  }
}
