/** Bind mounts: HOST:GUEST, or HOST:GUEST! for a guest path that is not to be dereferenced. */
module Binds {
  import opened Wrappers
  import opened Strings
  import opened PurePaths

  /** What the code asks of one unchanging file system. `resolve`: expand ~ and resolve links; it may
      raise. */
  datatype Files = Files(
    resolve: string -> Option<string>, present: string -> bool, isDirectory: string -> bool, hasShell: string -> bool)
  {
    /** What has been resolved resolves to itself. */
    ghost predicate Valid() {
      forall h, k :: resolve(h) == Some(k) ==> resolve(k) == Some(k)
    }
  }

  datatype Bind = Bind(host: string, guest: string, noDereference: bool)

  /** Absolute and free of traversal. */
  predicate GoodGuest(path: string) {
    Parse(path).Absolute() && ".." !in Parse(path).tail
  }

  function Validate(fs: Files, b: Bind): Result<Bind> {
    var host := fs.resolve(b.host);
    if host.None? then Failure("host")
    else if !fs.present(host.value) then Failure("bind source does not exist")
    else if !GoodGuest(b.guest) then Failure("guest bind destination")
    else Success(Bind(host.value, Parse(b.guest).Text(), b.noDereference))
  }

  function Text(b: Bind): string {
    b.host + ":" + b.guest + (if b.noDereference then "!" else "")
  }

  function Serialize(fs: Files, b: Bind): Result<string> {
    match Validate(fs, b)
    case Failure(reason) => Failure(reason)
    case Success(v) => Success(Text(v))
  }

  predicate EndsInBang(s: string) {
    s != "" && s[|s| - 1] == '!'
  }

  function WithoutBang(s: string): string {
    if EndsInBang(s) then s[..|s| - 1] else s
  }

  /** The first colon separates. */
  function ParseBind(fs: Files, spec: string): Result<Bind> {
    var i := IndexOf(spec, ':');
    if i == |spec| then Failure("bind must use HOST:GUEST or HOST:GUEST!")
    else
      var guest := spec[i + 1..];
      Validate(fs, Bind(spec[..i], WithoutBang(guest), EndsInBang(guest)))
  }

  // ---- what is accepted ----------------------------------------------------------------------

  /** A guest is good when its text starts with a slash and no piece between slashes is "..". */
  lemma GoodGuestExactly(path: string)
    ensures GoodGuest(path) <==> path != "" && path[0] == '/' && ".." !in Split(path, '/')
  {
    ParsedTailIsTail(path);
    KeepsParents(Split(path, '/'));
    RootExactly(path);
    hide Parse, Split;
  }

  lemma RootExactly(path: string)
    ensures Parse(path).Absolute() <==> path != "" && path[0] == '/'
  {
    hide Tail;
  }

  lemma {:induction false} KeepsParents(parts: seq<string>)
    ensures ".." in Kept(parts) <==> ".." in parts
  {
    if parts != [] {
      KeepsParents(parts[1..]);
    }
  }

  /** A bind is accepted exactly when its host resolves to something there and its guest is good; what
      comes out is that host, and the guest with its spare slashes and dots gone. */
  lemma AcceptedExactly(fs: Files, b: Bind)
    ensures Validate(fs, b).Success? <==> fs.resolve(b.host).Some? && fs.present(fs.resolve(b.host).value) && GoodGuest(b.guest)
    ensures Validate(fs, b).Success? ==>
              var v := Validate(fs, b).value;
              && Some(v.host) == fs.resolve(b.host) && v.noDereference == b.noDereference
              && Parse(v.guest) == Parse(b.guest) && GoodGuest(v.guest)
              && v.guest == Parse(b.guest).root + Join(Parse(b.guest).tail, '/')
  {
    ParseText(b.guest);
    hide Parse;
  }

  // ---- validating twice ----------------------------------------------------------------------

  /** A validated bind is a fixed point of validation. */
  lemma ValidateIsIdempotent(fs: Files, b: Bind)
    requires fs.Valid() && Validate(fs, b).Success?
    ensures Validate(fs, Validate(fs, b).value) == Validate(fs, b)
  {
    ParseText(b.guest);
    hide Parse;
  }

  // ---- reading back --------------------------------------------------------------------------

  lemma FirstColon(host: string, rest: string)
    requires ':' !in host
    ensures IndexOf(host + ":" + rest, ':') == |host|
    ensures (host + ":" + rest)[..|host|] == host && (host + ":" + rest)[|host| + 1..] == rest
  {
    IndexAfter(host, ':', rest);
  }

  /** A text without a colon is refused; in any other what comes before the first colon is the host, and
      a last "!" is the mark. */
  lemma ParsedExactly(fs: Files, host: string, rest: string)
    requires ':' !in host
    ensures ParseBind(fs, host).Failure?
    ensures ParseBind(fs, host + ":" + rest) ==
              if rest != "" && rest[|rest| - 1] == '!' then Validate(fs, Bind(host, rest[..|rest| - 1], true))
              else Validate(fs, Bind(host, rest, false))
  {
    IndexOfAbsent(host, ':');
    FirstColon(host, rest);
    hide Validate, IndexOf;
  }

  lemma EarlierColon(host: string, rest: string)
    requires ':' in host
    ensures var i := IndexOf(host, ':');
            && i < |host| && IndexOf(host + ":" + rest, ':') == i
            && (host + ":" + rest)[i + 1..] == host[i + 1..] + ":" + rest
  {
    var i := IndexOf(host, ':');
    assert host[..|host|] == host;
    assert host + ":" + rest == host[..i] + [':'] + (host[i + 1..] + ":" + rest);
    IndexAfter(host[..i], ':', host[i + 1..] + ":" + rest);
  }

  /** What comes back when the host holds no colon: the same bind, unless the guest was read as ending
      in the mark. */
  lemma ColonlessReadsBack(fs: Files, v: Bind)
    requires ':' !in v.host && Validate(fs, v) == Success(v)
    ensures ParseBind(fs, Text(v)) == Success(v) <==> v.noDereference || !EndsInBang(v.guest)
  {
    hide Validate, Parse, IndexOf;
    var mark := if v.noDereference then "!" else "";
    var rest := v.guest + mark;
    assert Text(v) == v.host + ":" + rest;
    hide Text;
    FirstColon(v.host, rest);
    GuestOfMark(v.guest, mark);
    hide EndsInBang, WithoutBang;
    assert ParseBind(fs, Text(v)) == Validate(fs, Bind(v.host, WithoutBang(rest), EndsInBang(rest)));
    if EndsInBang(rest) != v.noDereference {
      KeepsMark(fs, Bind(v.host, WithoutBang(rest), EndsInBang(rest)));
    } else {
      assert WithoutBang(rest) == v.guest;
    }
  }

  lemma GuestOfMark(guest: string, mark: string)
    requires mark == "" || mark == "!"
    ensures mark == "!" ==> EndsInBang(guest + mark) && WithoutBang(guest + mark) == guest
    ensures mark == "" ==> guest + mark == guest && (!EndsInBang(guest) ==> WithoutBang(guest) == guest)
  {
    assert mark == "" ==> guest + mark == guest;
  }

  lemma KeepsMark(fs: Files, b: Bind)
    ensures Validate(fs, b).Success? ==> Validate(fs, b).value.noDereference == b.noDereference
  {
    hide Parse, GoodGuest;
  }

  /** A guest read from the middle of a host has more components than the guest that was written. */
  lemma MisreadGuestDiffers(a: string, guest: string)
    requires GoodGuest(guest) && guest == Parse(guest).Text()
    ensures Parse(a + ":" + guest).Text() != guest
  {
    GoodGuestExactly(guest);
    hide Parse, GoodGuest, Tail;
    MisreadTail(a, guest);
    ParsedTailIsTail(a + ":" + guest);
    ParsedTailIsTail(guest);
    ParseText(a + ":" + guest);
  }

  lemma MisreadTail(a: string, guest: string)
    requires guest != "" && guest[0] == '/'
    ensures |Tail(a + ":" + guest)| > |Tail(guest)|
  {
    hide Tail;
    var rest := guest[1..];
    assert a + ":" + guest == (a + ":") + ['/'] + rest && guest == "" + ['/'] + rest;
    TailAt(a + ":", rest);
    TailAt("", rest);
    TailOfNothing();
    assert (a + ":")[|a|] == ':';
    TailNotEmpty(a + ":", ':');
  }

  lemma TailOfNothing()
    ensures Tail("") == []
  {
    assert Split("", '/') == [""];
  }

  lemma MarkedGuest(a: string, guest: string, mark: string)
    requires guest != "" && (mark == "" || mark == "!")
    ensures var g := a + ":" + (guest + mark);
            && (mark == "!" ==> EndsInBang(g) && WithoutBang(g) == a + ":" + guest)
            && (mark == "" ==> (EndsInBang(g) <==> EndsInBang(guest)) && (!EndsInBang(guest) ==> WithoutBang(g) == a + ":" + guest))
  {
    var g := a + ":" + (guest + mark);
    assert mark == "" ==> g == a + ":" + guest;
    assert mark == "!" ==> g == a + ":" + guest + "!";
  }

  /** How a bind whose host holds a colon is read. */
  lemma ReadPastColon(fs: Files, v: Bind)
    requires ':' in v.host
    ensures var i := IndexOf(v.host, ':');
            var guest := v.host[i + 1..] + ":" + (v.guest + (if v.noDereference then "!" else ""));
            i < |v.host| <= |Text(v)| && ParseBind(fs, Text(v)) == Validate(fs, Bind(Text(v)[..i], WithoutBang(guest), EndsInBang(guest)))
  {
    hide Validate, WithoutBang, EndsInBang, IndexOf;
    var rest := v.guest + (if v.noDereference then "!" else "");
    assert Text(v) == v.host + ":" + rest;
    hide Text;
    EarlierColon(v.host, rest);
  }

  lemma ValidatedGuest(fs: Files, b: Bind, v: Bind)
    requires Validate(fs, b) == Success(v)
    ensures v.guest == Parse(b.guest).Text() && v.noDereference == b.noDereference && GoodGuest(b.guest)
  {
  }

  lemma ColonInHostMisreads(fs: Files, v: Bind)
    requires ':' in v.host && Validate(fs, v) == Success(v)
    ensures ParseBind(fs, Text(v)) != Success(v)
  {
    hide *;
    var i := IndexOf(v.host, ':');
    var mark := if v.noDereference then "!" else "";
    var guest := v.host[i + 1..] + ":" + (v.guest + mark);
    ReadPastColon(fs, v);
    ValidatedGuest(fs, v, v);
    GuestNotEmpty(v.guest);
    MarkedGuest(v.host[i + 1..], v.guest, mark);
    MisreadGuestDiffers(v.host[i + 1..], v.guest);
    var read := Bind(Text(v)[..i], WithoutBang(guest), EndsInBang(guest));
    if Validate(fs, read).Success? {
      ValidatedGuest(fs, read, Validate(fs, read).value);
    }
  }

  lemma GuestNotEmpty(guest: string)
    requires GoodGuest(guest)
    ensures guest != ""
  {
  }

  /** What is written reads back as the validated bind exactly when its host holds no colon, and its
      guest does not end in the mark or carries it. */
  lemma RoundTripExactly(fs: Files, b: Bind)
    requires fs.Valid() && Validate(fs, b).Success?
    ensures Serialize(fs, b).Success?
    ensures var v := Validate(fs, b).value;
            ParseBind(fs, Serialize(fs, b).value) == Success(v) <==> ':' !in v.host && (v.noDereference || !EndsInBang(v.guest))
  {
    var v := Validate(fs, b).value;
    ValidateIsIdempotent(fs, b);
    hide Validate, ParseBind;
    if ':' in v.host {
      ColonInHostMisreads(fs, v);
    } else {
      ColonlessReadsBack(fs, v);
    }
  }

  /** Whatever parse_bind accepts is a validated bind. */
  lemma ParsedIsValidated(fs: Files, spec: string)
    requires fs.Valid() && ParseBind(fs, spec).Success?
    ensures Validate(fs, ParseBind(fs, spec).value) == ParseBind(fs, spec)
  {
    var i := IndexOf(spec, ':');
    var guest := spec[i + 1..];
    ValidateIsIdempotent(fs, Bind(spec[..i], WithoutBang(guest), EndsInBang(guest)));
  }
}
