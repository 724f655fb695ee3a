/** Lexicographic order on sequences of numbers, and sorting by such a key. */
module Ordering {

  /** The order of strings in the source languages: by code points in Python, by UTF-16 code units in
      Kotlin. */
  predicate AtMost(s: seq<int>, t: seq<int>) {
    s == [] || (t != [] && (s[0] < t[0] || (s[0] == t[0] && AtMost(s[1..], t[1..]))))
  }

  lemma {:induction false} AtMostTotal(s: seq<int>, t: seq<int>)
    ensures AtMost(s, t) || AtMost(t, s)
    ensures AtMost(s, t) && AtMost(t, s) ==> s == t
  {
    if s != [] && t != [] {
      AtMostTotal(s[1..], t[1..]);
      assert s == [s[0]] + s[1..] && t == [t[0]] + t[1..];
    }
  }

  lemma {:induction false} AtMostTransitive(s: seq<int>, t: seq<int>, u: seq<int>)
    requires AtMost(s, t) && AtMost(t, u)
    ensures AtMost(s, u)
  {
    if s != [] {
      if s[0] == t[0] == u[0] {
        AtMostTransitive(s[1..], t[1..], u[1..]);
      }
    }
  }

  /** The beginning of the other, or smaller at the first place where they differ. */
  predicate Precedes(s: seq<int>, t: seq<int>) {
    s <= t || exists i :: 0 <= i < |s| && i < |t| && s[..i] == t[..i] && s[i] < t[i]
  }

  lemma {:induction false} AtMostExactly(s: seq<int>, t: seq<int>)
    ensures AtMost(s, t) <==> Precedes(s, t)
  {
    if s != [] && t != [] {
      assert s == [s[0]] + s[1..] && t == [t[0]] + t[1..];
      if s[0] == t[0] {
        AtMostExactly(s[1..], t[1..]);
        PrecedesBehind(s[0], s[1..], t[1..]);
      } else {
        FirstDecides(s, t);
      }
      hide Precedes;
    }
  }

  lemma FirstDecides(s: seq<int>, t: seq<int>)
    requires s != [] && t != [] && s[0] != t[0]
    ensures Precedes(s, t) <==> s[0] < t[0]
  {
    forall i | 0 < i <= |s| && i <= |t| ensures s[..i] != t[..i] {
      assert s[..i][0] == s[0] && t[..i][0] == t[0];
    }
    assert s[..0] == t[..0];
  }

  lemma PrecedesBehind(a: int, s: seq<int>, t: seq<int>)
    ensures Precedes([a] + s, [a] + t) <==> Precedes(s, t)
  {
    var u, v := [a] + s, [a] + t;
    assert u[1..] == s && v[1..] == t;
    assert u <= v <==> s <= t;
    if i :| 0 <= i < |s| && i < |t| && s[..i] == t[..i] && s[i] < t[i] {
      assert u[..i + 1] == [a] + s[..i] && v[..i + 1] == [a] + t[..i] && u[i + 1] < v[i + 1];
    }
    if i :| 0 <= i < |u| && i < |v| && u[..i] == v[..i] && u[i] < v[i] {
      assert s[..i - 1] == u[..i][1..] && t[..i - 1] == v[..i][1..] && s[i - 1] < t[i - 1];
    }
  }

  predicate Ascending<T>(items: seq<T>, key: T -> seq<int>) {
    forall i, j :: 0 <= i < j < |items| ==> AtMost(key(items[i]), key(items[j]))
  }

  function Insert<T>(e: T, items: seq<T>, key: T -> seq<int>): seq<T> {
    if items == [] || AtMost(key(e), key(items[0])) then [e] + items else [items[0]] + Insert(e, items[1..], key)
  }

  /** The library's stable sort, by its result. */
  function Sorted<T>(items: seq<T>, key: T -> seq<int>): seq<T> {
    if items == [] then [] else Insert(items[0], Sorted(items[1..], key), key)
  }

  lemma {:induction false} InsertSorts<T>(e: T, items: seq<T>, key: T -> seq<int>)
    requires Ascending(items, key)
    ensures Ascending(Insert(e, items, key), key) && multiset(Insert(e, items, key)) == multiset{e} + multiset(items)
  {
    hide AtMost;
    var r := Insert(e, items, key);
    if items == [] || AtMost(key(e), key(items[0])) {
      forall i, j | 0 <= i < j < |r| ensures AtMost(key(r[i]), key(r[j])) {
        if i == 0 && j > 1 {
          AtMostTransitive(key(e), key(items[0]), key(items[j - 1]));
        }
      }
    } else {
      AtMostTotal(key(e), key(items[0]));
      InsertSorts(e, items[1..], key);
      assert items == [items[0]] + items[1..];
      forall j | 0 < j < |r| ensures AtMost(key(items[0]), key(r[j])) {
        assert r[j] in multiset(Insert(e, items[1..], key));
      }
    }
  }

  lemma {:induction false} SortedSorts<T>(items: seq<T>, key: T -> seq<int>)
    ensures Ascending(Sorted(items, key), key) && multiset(Sorted(items, key)) == multiset(items)
  {
    if items != [] {
      SortedSorts(items[1..], key);
      InsertSorts(items[0], Sorted(items[1..], key), key);
      assert items == [items[0]] + items[1..];
    }
  }

  // ---- sorting neither adds, drops nor repeats, and there is one sorted order ----------------

  ghost predicate Distinct<T>(items: seq<T>) {
    forall i, j :: 0 <= i < j < |items| ==> items[i] != items[j]
  }

  lemma SameMembers<T>(a: seq<T>, b: seq<T>)
    requires multiset(a) == multiset(b)
    ensures forall e :: e in a <==> e in b
  {
    assert forall e :: e in a <==> e in multiset(a);
    assert forall e :: e in b <==> e in multiset(b);
  }

  lemma OccursTwice<T>(r: seq<T>, i: nat, j: nat)
    requires i < j < |r|
    ensures r[i] == r[j] ==> multiset(r)[r[i]] >= 2
  {
    assert r == r[..i] + [r[i]] + r[i + 1..j] + [r[j]] + r[j + 1..];
  }

  lemma {:induction false} OccursOnce<T>(items: seq<T>, e: T)
    requires e in items && Distinct(items)
    ensures multiset(items)[e] == 1
  {
    assert items == [items[0]] + items[1..];
    if items[0] == e {
      assert e !in items[1..];
    } else {
      OccursOnce(items[1..], e);
    }
  }

  lemma SortedStays<T>(items: seq<T>, key: T -> seq<int>)
    ensures var r := Sorted(items, key);
            && Ascending(r, key) && (forall e :: e in r <==> e in items) && (Distinct(items) ==> Distinct(r))
  {
    SortedSorts(items, key);
    SameMembers(Sorted(items, key), items);
    if Distinct(items) {
      StaysDistinct(Sorted(items, key), items);
    }
  }

  lemma StaysDistinct<T>(r: seq<T>, items: seq<T>)
    requires multiset(r) == multiset(items) && Distinct(items)
    ensures Distinct(r)
  {
    forall i, j | 0 <= i < j < |r| ensures r[i] != r[j] {
      assert r[i] in multiset(r);
      OccursOnce(items, r[i]);
      OccursTwice(r, i, j);
    }
  }

  /** Items with distinct keys have one ascending order. */
  lemma {:induction false} OneOrder<T>(a: seq<T>, b: seq<T>, key: T -> seq<int>)
    requires Ascending(a, key) && Ascending(b, key) && Distinct(a) && Distinct(b)
    requires forall e :: e in a <==> e in b
    requires forall e, f :: e in a && f in a && key(e) == key(f) ==> e == f
    ensures a == b
  {
    if a == [] {
      FirstIsMember(b);
    } else {
      assert a[0] in a && a[0] in b;
      assert b[0] in b && b[0] in a;
      LeastFirst(a, b[0], key);
      LeastFirst(b, a[0], key);
      AtMostTotal(key(a[0]), key(b[0]));
      assert a[0] == b[0];
      TailMembers(a);
      TailMembers(b);
      hide Ascending;
      TailAscends(a, key);
      TailAscends(b, key);
      OneOrder(a[1..], b[1..], key);
      assert a == [a[0]] + a[1..] && b == [b[0]] + b[1..];
    }
  }

  lemma FirstIsMember<T>(a: seq<T>)
    ensures a != [] ==> a[0] in a
  {
  }

  lemma LeastFirst<T>(a: seq<T>, e: T, key: T -> seq<int>)
    requires Ascending(a, key) && e in a
    ensures AtMost(key(a[0]), key(e))
  {
    AtMostTotal(key(e), key(e));
  }

  lemma TailAscends<T>(a: seq<T>, key: T -> seq<int>)
    requires Ascending(a, key) && a != []
    ensures Ascending(a[1..], key)
  {
    hide AtMost;
  }

  lemma TailMembers<T>(a: seq<T>)
    requires a != [] && Distinct(a)
    ensures Distinct(a[1..]) && forall e :: e in a[1..] <==> e in a && e != a[0]
  {
  }
}
