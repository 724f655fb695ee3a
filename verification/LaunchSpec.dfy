/** The launch specification of a PRoot guest and the argument vector built from it. */
module LaunchSpec {
  import opened Wrappers
  import opened Strings
  import opened PurePaths
  import opened Binds

  const SCHEMA_VERSION: int := 1

  /** `environment`: the items of the mapping in order, with distinct keys. */
  datatype Spec = Spec(
    rootfs: string, command: seq<string>, binds: seq<Bind>, rootId: bool, killOnExit: bool,
    kernelRelease: Option<string>, workingDirectory: Option<string>,
    environment: seq<(string, string)>, schemaVersion: int)

  // ---- str.strip -----------------------------------------------------------------------------

  /** str.isspace, character by character. */
  predicate IsSpace(c: char) {
    var n := c as int;
    9 <= n <= 13 || 0x1C <= n <= 0x20 || n == 0x85 || n == 0xA0 || n == 0x1680 || 0x2000 <= n <= 0x200A
    || n == 0x2028 || n == 0x2029 || n == 0x202F || n == 0x205F || n == 0x3000
  }

  function StripLeft(s: string): (r: string)
    ensures |r| <= |s| && (r != "" ==> !IsSpace(r[0]))
    ensures s == s[..|s| - |r|] + r && forall c :: c in s[..|s| - |r|] ==> IsSpace(c)
  {
    if s != "" && IsSpace(s[0]) then
      assert s == [s[0]] + s[1..];
      StripLeft(s[1..])
    else s
  }

  function StripRight(s: string): (r: string)
    ensures |r| <= |s| && r == s[..|r|] && (r != "" ==> !IsSpace(r[|r| - 1]))
    ensures forall c :: c in s[|r|..] ==> IsSpace(c)
  {
    if s != "" && IsSpace(s[|s| - 1]) then StripRight(s[..|s| - 1]) else s
  }

  function Strip(s: string): string {
    StripRight(StripLeft(s))
  }

  predicate Blank(s: string) {
    forall c :: c in s ==> IsSpace(c)
  }

  /** Stripping takes everything exactly from blank text, and takes nothing the second time. */
  lemma StripFacts(s: string)
    ensures Strip(s) == "" <==> Blank(s)
    ensures Strip(Strip(s)) == Strip(s)
  {
    var l := StripLeft(s);
    var r := StripRight(l);
    if r != "" {
      assert r[0] == l[0];
      assert r[0] in s by { assert s[|s| - |l|] == l[0]; }
      assert StripLeft(r) == r;
      assert StripRight(r) == r;
    } else {
      assert l[0..] == l;
      assert s == s[..|s| - |l|] + l;
    }
  }

  /** `r` lies in `s` at `i` with nothing but blanks around it, and has none at its own ends. */
  predicate StripsAt(s: string, r: string, i: nat) {
    && i + |r| <= |s| && s[i..i + |r|] == r
    && (forall k :: 0 <= k < |s| && !(i <= k < i + |r|) ==> IsSpace(s[k]))
    && (r != "" ==> !IsSpace(r[0]) && !IsSpace(r[|r| - 1]))
  }

  /** A text is stripped to exactly what lies between the blanks around it. */
  lemma StripExactly(s: string, r: string)
    ensures r == Strip(s) <==> exists i :: 0 <= i <= |s| && StripsAt(s, r, i)
  {
    StripIsThere(s);
    if i :| 0 <= i <= |s| && StripsAt(s, r, i) {
      var j :| 0 <= j <= |s| && StripsAt(s, Strip(s), j);
      hide Strip;
      StripsOnce(s, r, i, Strip(s), j);
    }
  }

  lemma StripIsThere(s: string)
    ensures exists i :: 0 <= i <= |s| && StripsAt(s, Strip(s), i)
  {
    var l := StripLeft(s);
    var r := StripRight(l);
    StrippedLeft(s);
    StrippedRight(l);
    assert r == Strip(s);
    hide *;
    Stripped(s, l, r);
  }

  lemma StrippedLeft(s: string)
    ensures var l := StripLeft(s);
            |l| <= |s| && s[|s| - |l|..] == l && (l != "" ==> !IsSpace(l[0]))
            && forall k :: 0 <= k < |s| - |l| ==> IsSpace(s[k])
  {
    var l := StripLeft(s);
    var i := |s| - |l|;
    hide IsSpace, StripLeft;
    forall k | 0 <= k < i ensures IsSpace(s[k]) {
      assert s[k] == s[..i][k];
    }
  }

  lemma StrippedRight(l: string)
    ensures var r := StripRight(l);
            |r| <= |l| && l[..|r|] == r && (r != "" ==> !IsSpace(r[|r| - 1]))
            && forall k :: |r| <= k < |l| ==> IsSpace(l[k])
  {
    var r := StripRight(l);
    hide IsSpace, StripRight;
    forall k | |r| <= k < |l| ensures IsSpace(l[k]) {
      assert l[k] == l[|r|..][k - |r|];
    }
  }

  lemma Stripped(s: string, l: string, r: string)
    requires |r| <= |l| <= |s| && s[|s| - |l|..] == l && l[..|r|] == r
    requires (l != "" ==> !IsSpace(l[0])) && (r != "" ==> !IsSpace(r[|r| - 1]))
    requires forall k :: 0 <= k < |s| - |l| ==> IsSpace(s[k])
    requires forall k :: |r| <= k < |l| ==> IsSpace(l[k])
    ensures exists i :: 0 <= i <= |s| && StripsAt(s, r, i)
  {
    hide IsSpace;
    var i := |s| - |l|;
    forall k | i <= k < |s| ensures s[k] == l[k - i] {
      assert s[i..][k - i] == s[k];
    }
    assert s[i..i + |r|] == r;
    assert r != "" ==> r[0] == l[0];
    assert StripsAt(s, r, i);
  }

  lemma StripsOnce(s: string, r: string, i: nat, t: string, j: nat)
    requires StripsAt(s, r, i) && StripsAt(s, t, j)
    ensures r == t
  {
    hide IsSpace;
    if r != "" {
      assert r[0] == s[i] && r[|r| - 1] == s[i + |r| - 1];
    }
    if t != "" {
      assert t[0] == s[j] && t[|t| - 1] == s[j + |t| - 1];
    }
  }

  // ---- validation ----------------------------------------------------------------------------

  /** The loop over the binds, with the guests already seen. */
  function CheckBinds(fs: Files, binds: seq<Bind>, seen: set<string>): Result<seq<Bind>> {
    if binds == [] then Success([])
    else
      match Binds.Validate(fs, binds[0])
      case Failure(reason) => Failure(reason)
      case Success(b) =>
        if b.guest in seen then Failure("duplicate guest bind target")
        else
          match CheckBinds(fs, binds[1..], seen + {b.guest})
          case Failure(reason) => Failure(reason)
          case Success(rest) => Success([b] + rest)
  }

  predicate GoodKey(key: string) {
    key != "" && '=' !in key && '\0' !in key
  }

  /** Assignment to a dictionary: a known key keeps its place. */
  function Assign(env: seq<(string, string)>, key: string, value: string): (r: seq<(string, string)>)
    ensures |env| <= |r| <= |env| + 1 && forall i :: 0 <= i < |env| ==> r[i].0 == env[i].0
  {
    if env == [] then [(key, value)]
    else if env[0].0 == key then [(key, value)] + env[1..]
    else [env[0]] + Assign(env[1..], key, value)
  }

  /** The loop over the environment, with what has been normalized so far. */
  function CheckEnvironment(items: seq<(string, string)>, env: seq<(string, string)>): Result<seq<(string, string)>> {
    if items == [] then Success(env)
    else
      var key := Strip(items[0].0);
      if !GoodKey(key) then Failure("invalid environment key")
      else CheckEnvironment(items[1..], Assign(env, key, items[0].1))
  }

  function Release(given: Option<string>): Option<string> {
    if given.Some? && given.value != "" then Some(Strip(given.value)) else None
  }

  /** What the checks before the loops object to. */
  function Objection(fs: Files, s: Spec): Option<string> {
    var rootfs := fs.resolve(s.rootfs);
    if s.schemaVersion != SCHEMA_VERSION then Some("unsupported PRoot launch schema")
    else if rootfs.None? then Some("rootfs")
    else if !fs.isDirectory(rootfs.value) then Some("rootfs does not exist")
    else if !fs.hasShell(rootfs.value) then Some("rootfs has no usable shell")
    else if s.command == [] || Strip(s.command[0]) == "" then Some("guest command cannot be empty")
    else if s.workingDirectory.Some? && !GoodGuest(s.workingDirectory.value) then Some("guest working directory")
    else None
  }

  function Validate(fs: Files, s: Spec): Result<Spec> {
    var objection := Objection(fs, s);
    if objection.Some? then Failure(objection.value)
    else
      match CheckBinds(fs, s.binds, {})
      case Failure(reason) => Failure(reason)
      case Success(binds) =>
        match CheckEnvironment(s.environment, [])
        case Failure(reason) => Failure(reason)
        case Success(environment) =>
          Success(s.(rootfs := fs.resolve(s.rootfs).value, binds := binds, kernelRelease := Release(s.kernelRelease),
                     environment := environment))
  }

  function Prefixed(done: seq<Bind>, rest: Result<seq<Bind>>): Result<seq<Bind>> {
    match rest
    case Failure(reason) => Failure(reason)
    case Success(binds) => Success(done + binds)
  }

  lemma PrefixedNothing(rest: Result<seq<Bind>>)
    ensures Prefixed([], rest) == rest
  {
    if rest.Success? {
      assert [] + rest.value == rest.value;
    }
  }

  lemma PrefixedSnoc(done: seq<Bind>, b: Bind, rest: Result<seq<Bind>>)
    ensures Prefixed(done, Prefixed([b], rest)) == Prefixed(done + [b], rest)
  {
    if rest.Success? {
      assert done + ([b] + rest.value) == done + [b] + rest.value;
    }
  }

  /** The binds of ProotLaunchSpec.validate. */
  method NormalizeBinds(fs: Files, binds: seq<Bind>) returns (r: Result<seq<Bind>>)
    ensures r == CheckBinds(fs, binds, {})
  {
    hide Binds.Validate;
    var seenGuests: set<string> := {};
    var normalizedBinds: seq<Bind> := [];
    PrefixedNothing(CheckBinds(fs, binds, {}));
    var i := 0;
    while i < |binds|
      invariant 0 <= i <= |binds|
      invariant CheckBinds(fs, binds, {}) == Prefixed(normalizedBinds, CheckBinds(fs, binds[i..], seenGuests))
    {
      var normalized := Binds.Validate(fs, binds[i]);
      if normalized.Failure? {
        return Failure(normalized.reason);
      }
      var bind := normalized.value;
      if bind.guest in seenGuests {
        return Failure("duplicate guest bind target");
      }
      PrefixedSnoc(normalizedBinds, bind, CheckBinds(fs, binds[i + 1..], seenGuests + {bind.guest}));
      seenGuests := seenGuests + {bind.guest};
      normalizedBinds := normalizedBinds + [bind];
      i := i + 1;
    }
    assert normalizedBinds + [] == normalizedBinds;
    r := Success(normalizedBinds);
  }

  /** The environment of ProotLaunchSpec.validate. */
  method NormalizeEnvironment(items: seq<(string, string)>) returns (r: Result<seq<(string, string)>>)
    ensures r == CheckEnvironment(items, [])
  {
    hide Strip, GoodKey;
    var normalizedEnv: seq<(string, string)> := [];
    var i := 0;
    while i < |items|
      invariant 0 <= i <= |items|
      invariant CheckEnvironment(items, []) == CheckEnvironment(items[i..], normalizedEnv)
    {
      var key := Strip(items[i].0);
      if !GoodKey(key) {
        return Failure("invalid environment key");
      }
      normalizedEnv := Assign(normalizedEnv, key, items[i].1);
      i := i + 1;
    }
    r := Success(normalizedEnv);
  }

  /** ProotLaunchSpec.validate. */
  method ValidateSpec(fs: Files, s: Spec) returns (r: Result<Spec>)
    ensures r == Validate(fs, s)
  {
    hide Strip, CheckBinds, CheckEnvironment, GoodGuest;
    if s.schemaVersion != SCHEMA_VERSION {
      return Failure("unsupported PRoot launch schema");
    }
    var rootfs := fs.resolve(s.rootfs);
    if rootfs.None? {
      return Failure("rootfs");
    }
    if !fs.isDirectory(rootfs.value) {
      return Failure("rootfs does not exist");
    }
    if !fs.hasShell(rootfs.value) {
      return Failure("rootfs has no usable shell");
    }
    if s.command == [] || Strip(s.command[0]) == "" {
      return Failure("guest command cannot be empty");
    }
    if s.workingDirectory.Some? && !GoodGuest(s.workingDirectory.value) {
      return Failure("guest working directory");
    }
    var binds := NormalizeBinds(fs, s.binds);
    if binds.Failure? {
      return Failure(binds.reason);
    }
    var environment := NormalizeEnvironment(s.environment);
    if environment.Failure? {
      return Failure(environment.reason);
    }
    var release := None;
    if s.kernelRelease.Some? && s.kernelRelease.value != "" {
      release := Some(Strip(s.kernelRelease.value));
    }
    r := Success(s.(rootfs := rootfs.value, binds := binds.value, kernelRelease := release, environment := environment.value));
  }

  // ---- what acceptance means -----------------------------------------------------------------

  /** The normalized guest of a bind that validates. */
  function NormalGuest(fs: Files, b: Bind): string
    requires Binds.Validate(fs, b).Success?
  {
    Binds.Validate(fs, b).value.guest
  }

  /** Every bind validates, and the guests are new and pairwise distinct. */
  predicate Distinguishable(fs: Files, binds: seq<Bind>, seen: set<string>) {
    && (forall i :: 0 <= i < |binds| ==> Binds.Validate(fs, binds[i]).Success? && NormalGuest(fs, binds[i]) !in seen)
    && (forall i, j :: 0 <= i < j < |binds| ==> NormalGuest(fs, binds[i]) != NormalGuest(fs, binds[j]))
  }

  lemma DistinguishableStep(fs: Files, binds: seq<Bind>, seen: set<string>)
    requires binds != [] && Binds.Validate(fs, binds[0]).Success?
    ensures Distinguishable(fs, binds, seen) <==>
              NormalGuest(fs, binds[0]) !in seen && Distinguishable(fs, binds[1..], seen + {NormalGuest(fs, binds[0])})
  {
    hide Binds.Validate, NormalGuest;
    var tail := binds[1..];
    assert forall i :: 0 <= i < |tail| ==> tail[i] == binds[i + 1];
    assert forall i :: 0 < i < |binds| ==> binds[i] == tail[i - 1];
  }

  lemma {:induction false} CheckBindsExactly(fs: Files, binds: seq<Bind>, seen: set<string>)
    ensures CheckBinds(fs, binds, seen).Success? <==> Distinguishable(fs, binds, seen)
    ensures var r := CheckBinds(fs, binds, seen);
            r.Success? ==> |r.value| == |binds| && forall i :: 0 <= i < |binds| ==> Binds.Validate(fs, binds[i]) == Success(r.value[i])
  {
    if binds != [] {
      if Binds.Validate(fs, binds[0]).Success? {
        CheckBindsExactly(fs, binds[1..], seen + {NormalGuest(fs, binds[0])});
        DistinguishableStep(fs, binds, seen);
        hide Binds.Validate, Distinguishable;
        assert forall i :: 0 < i < |binds| ==> binds[i] == binds[1..][i - 1];
      }
    }
  }

  function Keys(env: seq<(string, string)>): set<string> {
    if env == [] then {} else {env[0].0} + Keys(env[1..])
  }

  /** An environment as validation leaves it: good keys, stripped, each once. */
  predicate Normal(env: seq<(string, string)>) {
    env != [] ==>
      GoodKey(env[0].0) && Strip(env[0].0) == env[0].0 && env[0].0 !in Keys(env[1..]) && Normal(env[1..])
  }

  lemma {:induction false} AssignKeepsNormal(env: seq<(string, string)>, key: string, value: string)
    requires Normal(env) && GoodKey(key) && Strip(key) == key
    ensures Normal(Assign(env, key, value)) && Keys(Assign(env, key, value)) == Keys(env) + {key}
    ensures key !in Keys(env) ==> Assign(env, key, value) == env + [(key, value)]
  {
    hide GoodKey, Strip;
    if env != [] && env[0].0 != key {
      AssignKeepsNormal(env[1..], key, value);
      assert env == [env[0]] + env[1..];
    }
  }

  lemma {:induction false} CheckedIsNormal(items: seq<(string, string)>, env: seq<(string, string)>)
    requires Normal(env)
    ensures CheckEnvironment(items, env).Success? ==> Normal(CheckEnvironment(items, env).value)
  {
    if items != [] && GoodKey(Strip(items[0].0)) {
      StripFacts(items[0].0);
      AssignKeepsNormal(env, Strip(items[0].0), items[0].1);
      CheckedIsNormal(items[1..], Assign(env, Strip(items[0].0), items[0].1));
      hide GoodKey, Strip, Assign, Normal;
    }
  }

  /** Checking a normal environment again changes nothing. */
  lemma {:induction false} NormalIsFixed(items: seq<(string, string)>, env: seq<(string, string)>)
    requires Normal(env) && Normal(items) && Keys(env) !! Keys(items)
    ensures CheckEnvironment(items, env) == Success(env + items)
  {
    hide GoodKey, Strip;
    if items != [] {
      AssignKeepsNormal(env, items[0].0, items[0].1);
      assert env + [items[0]] + items[1..] == env + items;
      NormalIsFixed(items[1..], env + [items[0]]);
    } else {
      assert env + items == env;
    }
  }

  // ---- the last value of a key wins ----------------------------------------------------------

  /** Some item has this key once it is stripped. */
  predicate Named(items: seq<(string, string)>, key: string) {
    exists i :: 0 <= i < |items| && Strip(items[i].0) == key
  }

  /** The last item with this key has this value. */
  predicate LastSays(items: seq<(string, string)>, key: string, value: string) {
    exists i :: 0 <= i < |items| && Strip(items[i].0) == key && items[i].1 == value && !Named(items[i + 1..], key)
  }

  lemma NamedStep(items: seq<(string, string)>, key: string)
    requires items != []
    ensures Named(items, key) <==> Strip(items[0].0) == key || Named(items[1..], key)
  {
    hide Strip;
    if i :| 0 <= i < |items| && Strip(items[i].0) == key {
      assert i > 0 ==> items[1..][i - 1] == items[i];
    }
    if i :| 0 <= i < |items[1..]| && Strip(items[1..][i].0) == key {
      assert items[i + 1] == items[1..][i];
    }
  }

  lemma LastSaysStep(items: seq<(string, string)>, key: string, value: string)
    requires items != []
    ensures LastSays(items, key, value) <==>
              LastSays(items[1..], key, value) || (items[0].1 == value && Strip(items[0].0) == key && !Named(items[1..], key))
  {
    hide Strip, Named;
    var tail := items[1..];
    assert forall i :: 0 <= i < |tail| ==> tail[i] == items[i + 1] && tail[i + 1..] == items[i + 2..];
    if i :| 0 <= i < |items| && Strip(items[i].0) == key && items[i].1 == value && !Named(items[i + 1..], key) {
      assert i > 0 ==> items[i] == tail[i - 1] && items[i + 1..] == tail[i..];
    }
    if i :| 0 <= i < |tail| && Strip(tail[i].0) == key && tail[i].1 == value && !Named(tail[i + 1..], key) {
      assert items[i + 1] == tail[i];
    }
  }

  lemma {:induction false} AssignedMembers(env: seq<(string, string)>, key: string, value: string, k: string, v: string)
    requires Normal(env)
    ensures (k, v) in env ==> k in Keys(env)
    ensures (k, v) in Assign(env, key, value) <==> if k == key then v == value else (k, v) in env
  {
    hide GoodKey, Strip;
    if env != [] {
      AssignedMembers(env[1..], key, value, k, v);
      assert env == [env[0]] + env[1..];
    }
  }

  /** The environment holds, under each stripped key, the value of the last item with that key. */
  lemma {:induction false} LastValueWins(items: seq<(string, string)>, env: seq<(string, string)>, k: string, v: string)
    requires Normal(env) && CheckEnvironment(items, env).Success?
    ensures (k, v) in CheckEnvironment(items, env).value <==> LastSays(items, k, v) || (!Named(items, k) && (k, v) in env)
  {
    if items != [] {
      var key, value := Strip(items[0].0), items[0].1;
      StripFacts(items[0].0);
      AssignKeepsNormal(env, key, value);
      AssignedMembers(env, key, value, k, v);
      NamedStep(items, k);
      LastSaysStep(items, k, v);
      LastValueWins(items[1..], Assign(env, key, value), k, v);
      LastIsNamed(items[1..], k, v);
      hide GoodKey, Strip, Assign, Normal, Named, LastSays;
    }
  }

  lemma LastIsNamed(items: seq<(string, string)>, k: string, v: string)
    ensures LastSays(items, k, v) ==> Named(items, k)
  {
    hide Strip;
  }

  lemma NothingIsNormal()
    ensures Normal([]) && Keys([]) == {}
  {
  }

  lemma CheckedEnvironmentIsFixed(items: seq<(string, string)>)
    requires CheckEnvironment(items, []).Success?
    ensures CheckEnvironment(CheckEnvironment(items, []).value, []) == CheckEnvironment(items, [])
  {
    hide GoodKey, Strip, CheckEnvironment, Assign, Normal, Keys;
    NothingIsNormal();
    var env := CheckEnvironment(items, []).value;
    CheckedIsNormal(items, []);
    NormalIsFixed(env, []);
    assert [] + env == env;
  }

  /** Checking validated binds again changes nothing. */
  lemma {:induction false} CheckedBindsAreFixed(fs: Files, binds: seq<Bind>, seen: set<string>)
    requires fs.Valid() && CheckBinds(fs, binds, seen).Success?
    ensures CheckBinds(fs, CheckBinds(fs, binds, seen).value, seen) == CheckBinds(fs, binds, seen)
  {
    if binds != [] {
      Binds.ValidateIsIdempotent(fs, binds[0]);
      hide Binds.Validate, Files.Valid;
      var b := Binds.Validate(fs, binds[0]).value;
      CheckedBindsAreFixed(fs, binds[1..], seen + {b.guest});
      assert CheckBinds(fs, binds, seen).value[1..] == CheckBinds(fs, binds[1..], seen + {b.guest}).value;
    }
  }

  /** No key is blank, or holds an equals sign or a NUL once it is stripped. */
  predicate KeysAreGood(items: seq<(string, string)>) {
    forall i :: 0 <= i < |items| ==>
      var key := Strip(items[i].0); !Blank(items[i].0) && (forall k :: 0 <= k < |key| ==> key[k] != '=' && key[k] != '\0')
  }

  lemma GoodKeyExactly(given: string)
    ensures var key := Strip(given);
            GoodKey(key) <==> !Blank(given) && forall k :: 0 <= k < |key| ==> key[k] != '=' && key[k] != '\0'
  {
    StripFacts(given);
    hide Strip, Blank;
  }

  lemma KeysAreGoodStep(items: seq<(string, string)>)
    requires items != []
    ensures KeysAreGood(items) <==> GoodKey(Strip(items[0].0)) && KeysAreGood(items[1..])
  {
    hide GoodKey, Strip, Blank;
    GoodKeyExactly(items[0].0);
    assert forall i :: 0 < i < |items| ==> items[i] == items[1..][i - 1];
  }

  lemma {:induction false} EnvironmentExactly(items: seq<(string, string)>, env: seq<(string, string)>)
    ensures CheckEnvironment(items, env).Success? <==> KeysAreGood(items)
  {
    if items != [] {
      hide GoodKey, Strip, Assign, KeysAreGood;
      KeysAreGoodStep(items);
      EnvironmentExactly(items[1..], Assign(env, Strip(items[0].0), items[0].1));
    }
  }

  lemma ObjectionExactly(fs: Files, s: Spec)
    ensures Objection(fs, s).None? <==>
              && s.schemaVersion == SCHEMA_VERSION
              && fs.resolve(s.rootfs).Some? && fs.isDirectory(fs.resolve(s.rootfs).value) && fs.hasShell(fs.resolve(s.rootfs).value)
              && s.command != [] && !Blank(s.command[0])
              && (s.workingDirectory.Some? ==> GoodGuest(s.workingDirectory.value))
  {
    hide Strip, Blank, GoodGuest;
    if s.command != [] {
      StripFacts(s.command[0]);
    }
  }

  /** A specification is accepted exactly when all of this holds of it. */
  lemma AcceptedExactly(fs: Files, s: Spec)
    ensures Validate(fs, s).Success? <==>
              && s.schemaVersion == SCHEMA_VERSION
              && fs.resolve(s.rootfs).Some? && fs.isDirectory(fs.resolve(s.rootfs).value) && fs.hasShell(fs.resolve(s.rootfs).value)
              && s.command != [] && !Blank(s.command[0])
              && (s.workingDirectory.Some? ==> GoodGuest(s.workingDirectory.value))
              && Distinguishable(fs, s.binds, {})
              && KeysAreGood(s.environment)
  {
    ObjectionExactly(fs, s);
    CheckBindsExactly(fs, s.binds, {});
    EnvironmentExactly(s.environment, []);
    hide Objection, CheckBinds, CheckEnvironment, Distinguishable, KeysAreGood, Strip, Blank, GoodGuest, Release;
  }

  lemma NothingToStrip(s: string)
    requires s != "" && !IsSpace(s[0]) && !IsSpace(s[|s| - 1])
    ensures Strip(s) == s
  {
  }

  lemma OneBindPasses(fs: Files, b: Bind)
    requires Binds.Validate(fs, b).Success?
    ensures CheckBinds(fs, [b], {}).Success?
  {
    hide Binds.Validate;
    assert [b][1..] == [];
  }

  /** There is a file system and a specification, with a bind in it, that is accepted. */
  lemma SomethingIsAccepted() returns (fs: Files, s: Spec)
    ensures fs.Valid() && Validate(fs, s).Success? && |s.binds| == 1
  {
    fs := Files(h => Some(h), h => true, h => true, h => true);
    var b := Bind("/sdcard", "/", false);
    s := Spec("/rootfs", ["/bin/sh"], [b], true, true, None, None, [], 1);
    NothingToStrip("/bin/sh");
    GoodGuestExactly("/");
    SplitAt("", '/', "");
    assert "" + ['/'] + "" == "/";
    assert Split("", '/') == [""];
    hide Parse, Strip, GoodGuest, Split;
    OneBindPasses(fs, b);
    hide CheckBinds;
    assert CheckEnvironment([], []).Success?;
  }

  /** The guests of an accepted launch are normalized, absolute, traversal-free and pairwise distinct. */
  lemma AcceptedGuestsAreDistinct(fs: Files, s: Spec)
    requires fs.Valid() && Validate(fs, s).Success?
    ensures var binds := Validate(fs, s).value.binds;
            && |binds| == |s.binds|
            && (forall i :: 0 <= i < |binds| ==> Binds.Validate(fs, binds[i]) == Success(binds[i]))
            && (forall i, j :: 0 <= i < j < |binds| ==> binds[i].guest != binds[j].guest)
  {
    CheckBindsExactly(fs, s.binds, {});
    var binds := Validate(fs, s).value.binds;
    hide Binds.Validate, CheckBinds;
    forall i | 0 <= i < |binds| ensures Binds.Validate(fs, binds[i]) == Success(binds[i]) {
      Binds.ValidateIsIdempotent(fs, s.binds[i]);
    }
  }

  /** What is in an accepted specification, in the words of the one that was given: the root file system
      resolved, the binds validated, the release stripped unless there was none, each environment key
      stripped with its last value, and everything else as it was. */
  lemma ValidatedFields(fs: Files, s: Spec, k: string, value: string)
    requires Validate(fs, s).Success?
    ensures var v := Validate(fs, s).value;
            && fs.resolve(s.rootfs) == Some(v.rootfs) && v.command == s.command && v.rootId == s.rootId
            && v.killOnExit == s.killOnExit && v.workingDirectory == s.workingDirectory && v.schemaVersion == s.schemaVersion == 1
            && (v.kernelRelease.None? <==> s.kernelRelease.None? || s.kernelRelease.value == "")
            && (v.kernelRelease.Some? ==>
                  exists i :: 0 <= i <= |s.kernelRelease.value| && StripsAt(s.kernelRelease.value, v.kernelRelease.value, i))
            && |v.binds| == |s.binds|
            && (forall i :: 0 <= i < |v.binds| ==>
                  && fs.resolve(s.binds[i].host) == Some(v.binds[i].host) && v.binds[i].guest == Parse(s.binds[i].guest).Text()
                  && v.binds[i].noDereference == s.binds[i].noDereference)
            && ((k, value) in v.environment <==> LastSays(s.environment, k, value))
  {
    hide *;
    NothingIsNormal();
    ValidatedParts(fs, s);
    LastValueWins(s.environment, [], k, value);
    CheckBindsExactly(fs, s.binds, {});
    ReleaseStrips(s.kernelRelease);
    var v := Validate(fs, s).value;
    forall i | 0 <= i < |v.binds|
      ensures fs.resolve(s.binds[i].host) == Some(v.binds[i].host) && v.binds[i].guest == Parse(s.binds[i].guest).Text()
              && v.binds[i].noDereference == s.binds[i].noDereference
    {
      BindParts(fs, s.binds[i]);
    }
  }

  lemma ValidatedParts(fs: Files, s: Spec)
    requires Validate(fs, s).Success?
    ensures CheckBinds(fs, s.binds, {}).Success? && CheckEnvironment(s.environment, []).Success?
    ensures fs.resolve(s.rootfs).Some? && s.schemaVersion == 1
    ensures Validate(fs, s).value ==
              s.(rootfs := fs.resolve(s.rootfs).value, binds := CheckBinds(fs, s.binds, {}).value,
                 kernelRelease := Release(s.kernelRelease), environment := CheckEnvironment(s.environment, []).value)
  {
    hide Strip, GoodGuest, CheckEnvironment, CheckBinds, Release;
  }

  lemma BindParts(fs: Files, b: Bind)
    requires Binds.Validate(fs, b).Success?
    ensures var v := Binds.Validate(fs, b).value;
            fs.resolve(b.host) == Some(v.host) && v.guest == Parse(b.guest).Text() && v.noDereference == b.noDereference
  {
    hide Parse, GoodGuest;
  }

  lemma ReleaseStrips(given: Option<string>)
    ensures Release(given).None? <==> given.None? || given.value == ""
    ensures Release(given).Some? ==>
              given.Some? && exists i :: 0 <= i <= |given.value| && StripsAt(given.value, Release(given).value, i)
  {
    if given.Some? {
      StripExactly(given.value, Strip(given.value));
    }
    hide Strip, StripsAt;
  }

  /** Resolving the root file system first raises no new objection. */
  lemma ObjectsOnce(fs: Files, s: Spec, v: Spec)
    requires fs.Valid() && Objection(fs, s).None?
    requires v == s.(rootfs := fs.resolve(s.rootfs).value, binds := v.binds, kernelRelease := v.kernelRelease, environment := v.environment)
    ensures fs.resolve(s.rootfs).Some? && Objection(fs, v).None? && fs.resolve(v.rootfs) == Some(v.rootfs)
  {
    hide Strip, GoodGuest;
  }

  lemma Revalidates(fs: Files, s: Spec)
    requires fs.Valid() && Validate(fs, s).Success?
    ensures var v := Validate(fs, s).value; Validate(fs, v) == Success(v.(kernelRelease := Release(v.kernelRelease)))
  {
    var v := Validate(fs, s).value;
    hide Objection, CheckBinds, CheckEnvironment, Release, Files.Valid;
    CheckedBindsAreFixed(fs, s.binds, {});
    CheckedEnvironmentIsFixed(s.environment);
    ObjectsOnce(fs, s, v);
  }

  lemma ReleaseFacts(given: Option<string>)
    ensures Release(given) == Some("") <==> given.Some? && given.value != "" && Blank(given.value)
    ensures Release(Release(given)) == if Release(given) == Some("") then None else Release(given)
    ensures Release(Release(Release(given))) == Release(Release(given))
  {
    if given.Some? {
      StripFacts(given.value);
      hide Strip, Blank;
    }
  }

  /** Validating what validation returned changes nothing, exactly unless a kernel release was given
      that is nothing but blanks; a second validation drops that. */
  lemma RevalidationExactly(fs: Files, s: Spec)
    requires fs.Valid() && Validate(fs, s).Success?
    ensures var v := Validate(fs, s).value;
            && Validate(fs, v).Success?
            && Validate(fs, v).value == v.(kernelRelease := if v.kernelRelease == Some("") then None else v.kernelRelease)
            && (Validate(fs, v) == Success(v) <==>
                  !(s.kernelRelease.Some? && s.kernelRelease.value != "" && Blank(s.kernelRelease.value)))
            && Validate(fs, Validate(fs, v).value) == Validate(fs, v)
  {
    var v := Validate(fs, s).value;
    assert v.kernelRelease == Release(s.kernelRelease);
    Revalidates(fs, s);
    Revalidates(fs, v);
    ReleaseFacts(s.kernelRelease);
    hide Validate, Release, Blank;
  }
}
