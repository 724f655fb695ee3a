/** Canonical absolute paths as component lists, and the string test for containment. */
module Paths {
  import opened Strings

  predicate Component(p: string) {
    p != "" && p != "." && p != ".." && '/' !in p
  }

  predicate AllComponents(parts: seq<string>) {
    forall p :: p in parts ==> Component(p)
  }

  /** The canonical path with these components. */
  function PathString(parts: seq<string>): string {
    "/" + Join(parts, '/')
  }

  ghost predicate IsCanonical(path: string) {
    exists parts :: AllComponents(parts) && path == PathString(parts)
  }

  /** The containment test: equal, or a proper extension past a separator. */
  predicate IsWithin(child: string, parent: string) {
    child == parent || parent + "/" <= child
  }

  lemma SplitPath(parts: seq<string>)
    requires AllComponents(parts)
    ensures Split(PathString(parts), '/') == if parts == [] then ["", ""] else [""] + parts
  {
    var rest := Join(parts, '/');
    assert "/" + rest == "" + ['/'] + rest;
    SplitAt("", '/', rest);
    if parts != [] {
      SplitJoin(parts, '/');
    }
  }

  lemma PathStringInjective(a: seq<string>, b: seq<string>)
    requires AllComponents(a) && AllComponents(b) && PathString(a) == PathString(b)
    ensures a == b
  {
    SplitPath(a);
    SplitPath(b);
    var pa, pb := [""] + a, [""] + b;
    assert a != [] ==> a[0] in a && pa[1] != "";
    assert b != [] ==> b[0] in b && pb[1] != "";
    assert a == pa[1..] && b == pb[1..];
  }

  /** On canonical paths the string test is the component prefix test, except for the root directory:
      of that, the test takes nothing but the root itself to be inside. */
  lemma IsWithinExactly(child: seq<string>, parent: seq<string>)
    requires AllComponents(child) && AllComponents(parent)
    ensures IsWithin(PathString(child), PathString(parent)) <==>
              if parent == [] then child == [] else parent <= child
  {
    var c, p := PathString(child), PathString(parent);
    if c == p {
      PathStringInjective(child, parent);
    }
    if p + "/" <= c {
      ExtensionIsPrefix(child, parent, c[|p| + 1..]);
    }
    if parent != [] && parent <= child && child != parent {
      var rest := child[|parent|..];
      assert child == parent + rest;
      JoinConcat(parent, rest, '/');
      assert c == p + "/" + Join(rest, '/');
    }
  }

  lemma ExtensionIsPrefix(child: seq<string>, parent: seq<string>, rest: string)
    requires AllComponents(child) && AllComponents(parent)
    requires PathString(child) == PathString(parent) + "/" + rest
    ensures parent != [] && parent <= child
  {
    SplitPath(child);
    SplitPath(parent);
    SplitAt(PathString(parent), '/', rest);
    var whole := Split(PathString(child), '/');
    assert whole == Split(PathString(parent), '/') + Split(rest, '/');
    assert |whole| >= 3;
    assert whole == [""] + child && child[0] in child;
    assert whole[1] == child[0];
    assert whole[1] == Split(PathString(parent), '/')[1];
    assert forall i :: 0 <= i < |parent| ==> child[i] == whole[i + 1] == parent[i];
  }
}
