/** PurePosixPath: how a path string is parsed and written back. */
module PurePaths {
  import opened Strings

  /** `root` is "", "/" or "//"; `tail` holds the components that are neither empty nor ".". */
  datatype PurePath = PurePath(root: string, tail: seq<string>) {
    predicate Absolute() {
      root != ""
    }

    /** str(path). */
    function Text(): string {
      if root == "" && tail == [] then "." else root + Join(tail, '/')
    }
  }

  predicate Counts(part: string) {
    part != "" && part != "."
  }

  /** The parts of a split that are kept. */
  function Kept(parts: seq<string>): (k: seq<string>)
    ensures forall p :: p in k ==> p in parts && Counts(p)
  {
    if parts == [] then [] else (if Counts(parts[0]) then [parts[0]] else []) + Kept(parts[1..])
  }

  function Tail(path: string): (t: seq<string>)
    ensures forall p :: p in t ==> Counts(p) && '/' !in p
  {
    Kept(Split(path, '/'))
  }

  /** Exactly two leading slashes are a root of their own. */
  function Parse(path: string): PurePath {
    if path == "" || path[0] != '/' then PurePath("", Tail(path))
    else if |path| >= 2 && path[1] == '/' && (|path| == 2 || path[2] != '/') then PurePath("//", Tail(path[2..]))
    else PurePath("/", Tail(path[1..]))
  }

  lemma {:induction false} KeptConcat(a: seq<string>, b: seq<string>)
    ensures Kept(a + b) == Kept(a) + Kept(b)
  {
    if a == [] {
      assert a + b == b;
    } else {
      assert (a + b)[1..] == a[1..] + b;
      KeptConcat(a[1..], b);
    }
  }

  lemma {:induction false} KeptAll(parts: seq<string>)
    requires forall p :: p in parts ==> Counts(p)
    ensures Kept(parts) == parts
  {
    if parts != [] {
      KeptAll(parts[1..]);
      assert parts == [parts[0]] + parts[1..];
    }
  }

  lemma TailAt(a: string, b: string)
    ensures Tail(a + ['/'] + b) == Tail(a) + Tail(b)
  {
    SplitAt(a, '/', b);
    KeptConcat(Split(a, '/'), Split(b, '/'));
  }

  lemma TailJoin(tail: seq<string>)
    requires forall p :: p in tail ==> Counts(p) && '/' !in p
    ensures Tail(Join(tail, '/')) == tail
  {
    if tail == [] {
      assert Split("", '/') == [""];
    } else {
      SplitJoin(tail, '/');
      KeptAll(tail);
    }
  }

  lemma RootParses(root: string, rest: string)
    requires root == "" || root == "/" || root == "//"
    requires rest == "" || rest[0] != '/'
    ensures Parse(root + rest) == PurePath(root, Tail(rest))
  {
    hide Tail;
    if root == "/" {
      assert ("/" + rest)[1..] == rest;
    } else if root == "//" {
      assert ("//" + rest)[2..] == rest;
    } else {
      assert "" + rest == rest;
    }
  }

  lemma JoinStart(tail: seq<string>)
    requires forall p :: p in tail ==> Counts(p) && '/' !in p
    ensures var j := Join(tail, '/'); j == "" || j[0] != '/'
  {
    if tail != [] {
      assert tail[0] in tail && tail[0][0] in tail[0];
    }
  }

  lemma RootIsOneOfThree(path: string)
    ensures var r := Parse(path).root; r == "" || r == "/" || r == "//"
  {
  }

  /** Writing a parsed path and parsing it again gives the same path: normalizing is idempotent. */
  lemma ParseText(path: string)
    ensures Parse(Parse(path).Text()) == Parse(path)
  {
    var p := Parse(path);
    assert forall t :: t in p.tail ==> Counts(t) && '/' !in t by { ParsedTail(path); }
    RootIsOneOfThree(path);
    if p.root == "" && p.tail == [] {
      SplitWhole(".", '/');
    } else {
      hide Parse;
      TailJoin(p.tail);
      JoinStart(p.tail);
      RootParses(p.root, Join(p.tail, '/'));
    }
  }

  lemma ParsedTail(path: string)
    ensures forall t :: t in Parse(path).tail ==> Counts(t) && '/' !in t
  {
  }

  /** The components of a path are those of its whole text: the root adds none. */
  lemma ParsedTailIsTail(path: string)
    ensures Parse(path).tail == Tail(path)
  {
    if path != "" && path[0] == '/' {
      assert path == "" + ['/'] + path[1..];
      TailAt("", path[1..]);
      if |path| >= 2 && path[1] == '/' {
        assert path[1..] == "" + ['/'] + path[2..];
        TailAt("", path[2..]);
      }
    }
  }

  /** The components are the pieces between slashes that are neither empty nor a dot; the root is what the
      text begins with: nothing, two slashes if there are exactly two, and otherwise one. */
  lemma ParsedExactly(path: string, part: string)
    ensures part in Parse(path).tail <==> part in Split(path, '/') && part != "" && part != "."
    ensures Parse(path).root == if "//" <= path && !("///" <= path) then "//" else if "/" <= path then "/" else ""
  {
    ParsedTailIsTail(path);
    KeptExactly(Split(path, '/'), part);
    hide Split, Kept;
  }

  lemma {:induction false} KeptExactly(parts: seq<string>, part: string)
    ensures part in Kept(parts) <==> part in parts && part != "" && part != "."
  {
    if parts != [] {
      KeptExactly(parts[1..], part);
    }
  }

  lemma {:induction false} SplitHolds(s: string, sep: char, c: char)
    requires c in s && c != sep
    ensures exists p :: p in Split(s, sep) && c in p
  {
    var rest := Split(s[1..], sep);
    if s[0] == c {
      assert c in Split(s, sep)[0];
    } else {
      SplitHolds(s[1..], sep, c);
      var p :| p in rest && c in p;
      if s[0] != sep && p == rest[0] {
        assert c in Split(s, sep)[0];
      } else if s[0] == sep {
        assert p in [""] + rest;
      } else {
        assert p in rest[1..];
      }
    }
  }

  lemma {:induction false} SomethingKept(parts: seq<string>, part: string)
    requires part in parts && Counts(part)
    ensures part in Kept(parts)
  {
    if parts[0] != part {
      SomethingKept(parts[1..], part);
    }
  }

  /** Text with a character that is neither a slash nor a dot has a component. */
  lemma TailNotEmpty(s: string, c: char)
    requires c in s && c != '/' && c != '.'
    ensures Tail(s) != []
  {
    SplitHolds(s, '/', c);
    var p :| p in Split(s, '/') && c in p;
    SomethingKept(Split(s, '/'), p);
  }
}
