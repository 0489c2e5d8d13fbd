/**
 Stable sorting by a comparison, as Python's `sorted` and `list.sort` do it, and the order
 of strings by code point.
 */
module Sorting {

  /** A total preorder: two keys may tie. */
  ghost predicate Comparison<T(!new)>(le: (T, T) -> bool) {
    && (forall x, y :: le(x, y) || le(y, x))
    && (forall x, y, z :: le(x, y) && le(y, z) ==> le(x, z))
  }

  ghost predicate SortedBy<T(!new)>(le: (T, T) -> bool, s: seq<T>) {
    forall i, j :: 0 <= i < j < |s| ==> le(s[i], s[j])
  }

  /** Puts x after everything it does not precede. */
  function Insert<T>(le: (T, T) -> bool, x: T, s: seq<T>): seq<T> {
    if s == [] || le(s[|s| - 1], x) then s + [x]
    else Insert(le, x, s[..|s| - 1]) + [s[|s| - 1]]
  }

  function Sort<T>(le: (T, T) -> bool, s: seq<T>): seq<T> {
    if s == [] then [] else Insert(le, s[|s| - 1], Sort(le, s[..|s| - 1]))
  }

  lemma {:induction false} InsertKeeps<T>(le: (T, T) -> bool, x: T, s: seq<T>)
    ensures multiset(Insert(le, x, s)) == multiset(s) + multiset{x}
  {
    if !(s == [] || le(s[|s| - 1], x)) {
      InsertKeeps(le, x, s[..|s| - 1]);
      assert s == s[..|s| - 1] + [s[|s| - 1]];
    }
  }

  lemma {:induction false} SameMembers<T>(a: seq<T>, b: seq<T>, x: T)
    requires multiset(a) == multiset(b)
    ensures x in a <==> x in b
  {
    assert x in a <==> x in multiset(a);
    assert x in b <==> x in multiset(b);
  }

  /** Everything in a sorted list is the last element or precedes it. */
  lemma {:induction false} LastIsGreatest<T(!new)>(le: (T, T) -> bool, s: seq<T>, x: T)
    requires SortedBy(le, s) && x in s
    ensures x == s[|s| - 1] || le(x, s[|s| - 1])
  {
    var i :| 0 <= i < |s| && s[i] == x;
    assert i < |s| - 1 ==> le(s[i], s[|s| - 1]);
  }

  lemma {:induction false} SortedSnoc<T(!new)>(le: (T, T) -> bool, s: seq<T>, x: T)
    requires SortedBy(le, s) && forall i :: 0 <= i < |s| ==> le(s[i], x)
    ensures SortedBy(le, s + [x])
  {
  }

  lemma {:induction false} InsertSorted<T(!new)>(le: (T, T) -> bool, x: T, s: seq<T>)
    requires Comparison(le) && SortedBy(le, s)
    ensures SortedBy(le, Insert(le, x, s))
  {
    if s == [] {
    } else if le(s[|s| - 1], x) {
      forall i | 0 <= i < |s| ensures le(s[i], x) {
        LastIsGreatest(le, s, s[i]);
      }
      SortedSnoc(le, s, x);
    } else {
      var init, last := s[..|s| - 1], s[|s| - 1];
      var r := Insert(le, x, init);
      InsertSorted(le, x, init);
      InsertKeeps(le, x, init);
      forall i | 0 <= i < |r| ensures le(r[i], last) {
        SameMembers(r, init + [x], r[i]);
        if r[i] != x {
          LastIsGreatest(le, s, r[i]);
        }
      }
      SortedSnoc(le, r, last);
    }
  }

  /** The result is the same elements in order. */
  lemma {:induction false} SortSorts<T(!new)>(le: (T, T) -> bool, s: seq<T>)
    requires Comparison(le)
    ensures SortedBy(le, Sort(le, s)) && multiset(Sort(le, s)) == multiset(s)
  {
    hide Insert, Comparison;
    if s != [] {
      var init, last := s[..|s| - 1], s[|s| - 1];
      SortSorts(le, init);
      assert s == init + [last];
      InsertSorted(le, last, Sort(le, init));
      InsertKeeps(le, last, Sort(le, init));
    }
  }

  /** The elements of a list that tie with x, in their order. */
  function Ties<T>(le: (T, T) -> bool, x: T, s: seq<T>): seq<T> {
    if s == [] then []
    else
      var last := s[|s| - 1];
      Ties(le, x, s[..|s| - 1]) + if le(x, last) && le(last, x) then [last] else []
  }

  lemma {:induction false} TiesSnoc<T>(le: (T, T) -> bool, x: T, s: seq<T>, y: T)
    ensures Ties(le, x, s + [y]) == Ties(le, x, s) + if le(x, y) && le(y, x) then [y] else []
  {
    assert (s + [y])[..|s|] == s;
  }

  lemma {:induction false} TieThrough<T(!new)>(le: (T, T) -> bool, a: T, x: T, b: T)
    requires Comparison(le)
    ensures le(a, x) && le(x, b) ==> le(a, b)
  {
  }

  lemma {:induction false} InsertStable<T(!new)>(le: (T, T) -> bool, x: T, y: T, s: seq<T>)
    requires Comparison(le)
    ensures Ties(le, x, Insert(le, y, s)) == Ties(le, x, s + [y])
  {
    hide Comparison, Ties;
    if !(s == [] || le(s[|s| - 1], y)) {
      var init, last := s[..|s| - 1], s[|s| - 1];
      InsertStable(le, x, y, init);
      assert s == init + [last];
      TiesSnoc(le, x, Insert(le, y, init), last);
      TiesSnoc(le, x, init, y);
      TiesSnoc(le, x, init, last);
      TiesSnoc(le, x, s, y);
      TieThrough(le, last, x, y);
    }
  }

  /** Elements that tie keep their order. */
  lemma {:induction false} SortStable<T(!new)>(le: (T, T) -> bool, s: seq<T>, x: T)
    requires Comparison(le)
    ensures Ties(le, x, Sort(le, s)) == Ties(le, x, s)
  {
    hide Insert, Comparison, SortedBy;
    if s != [] {
      var init, last := s[..|s| - 1], s[|s| - 1];
      SortStable(le, init, x);
      InsertStable(le, x, last, Sort(le, init));
      TiesSnoc(le, x, Sort(le, init), last);
      assert s == init + [last];
    }
  }

  lemma {:induction false} Cancel<T>(a: multiset<T>, b: multiset<T>, x: T)
    requires a + multiset{x} == b + multiset{x}
    ensures a == b
  {
    assert a == a + multiset{x} - multiset{x};
    assert b == b + multiset{x} - multiset{x};
  }

  lemma {:induction false} DropLast<T>(a: seq<T>, b: seq<T>)
    requires multiset(a) == multiset(b) && a != [] && b != [] && a[|a| - 1] == b[|b| - 1]
    ensures multiset(a[..|a| - 1]) == multiset(b[..|b| - 1])
  {
    var x := a[|a| - 1];
    assert a == a[..|a| - 1] + [x] && b == b[..|b| - 1] + [x];
    Cancel(multiset(a[..|a| - 1]), multiset(b[..|b| - 1]), x);
  }

  /** Two sorted arrangements of the same elements agree when no two of those elements tie. */
  lemma {:induction false} SortedUnique<T(!new)>(le: (T, T) -> bool, a: seq<T>, b: seq<T>)
    requires SortedBy(le, a) && SortedBy(le, b) && multiset(a) == multiset(b)
    requires forall x, y :: x in a && y in a && le(x, y) && le(y, x) ==> x == y
    ensures a == b
  {
    assert |a| == |multiset(a)| == |multiset(b)| == |b|;
    if a != [] {
      var x, y := a[|a| - 1], b[|b| - 1];
      SameMembers(a, b, x);
      SameMembers(a, b, y);
      LastIsGreatest(le, a, y);
      LastIsGreatest(le, b, x);
      assert x == y;
      DropLast(a, b);
      assert forall z :: z in a[..|a| - 1] ==> z in a;
      SortedUnique(le, a[..|a| - 1], b[..|b| - 1]);
      assert a == a[..|a| - 1] + [x] && b == b[..|b| - 1] + [y];
    }
  }

  // ---------------------------------------------------------------- strings

  /** Order by code point, a prefix first. */
  predicate TextLe(a: string, b: string) {
    a == [] || (b != [] && (a[0] < b[0] || (a[0] == b[0] && TextLe(a[1..], b[1..]))))
  }

  /** Python's order of strings: a comes first if it is the beginning of b, or holds the smaller code
      point where the two first differ. */
  ghost predicate InOrder(a: string, b: string) {
    || (|a| <= |b| && a == b[..|a|])
    || exists i :: 0 <= i < |a| && i < |b| && a[..i] == b[..i] && a[i] < b[i]
  }

  lemma {:induction false} TextLeIff(a: string, b: string)
    ensures TextLe(a, b) <==> InOrder(a, b)
  {
    if a != [] && b != [] {
      if a[0] == b[0] {
        TextLeIff(a[1..], b[1..]);
        InOrderTail(a, b);
      } else if a[0] < b[0] {
        assert a[..0] == b[..0];
      }
    }
  }

  lemma {:induction false} InOrderTail(a: string, b: string)
    requires a != [] && b != [] && a[0] == b[0]
    ensures InOrder(a, b) <==> InOrder(a[1..], b[1..])
  {
    assert a == [a[0]] + a[1..] && b == [b[0]] + b[1..];
    if |a| <= |b| && a == b[..|a|] {
      assert a[1..] == b[1..][..|a| - 1];
    }
    if |a| <= |b| && a[1..] == b[1..][..|a| - 1] {
      assert b[..|a|] == [b[0]] + b[1..][..|a| - 1];
    }
    if i :| 0 <= i < |a| && i < |b| && a[..i] == b[..i] && a[i] < b[i] {
      assert a[1..][..i - 1] == a[..i][1..] && b[1..][..i - 1] == b[..i][1..];
      assert a[1..][i - 1] == a[i] && b[1..][i - 1] == b[i];
    }
    if j :| 0 <= j < |a| - 1 && j < |b| - 1 && a[1..][..j] == b[1..][..j] && a[1..][j] < b[1..][j] {
      assert a[..j + 1] == [a[0]] + a[1..][..j] && b[..j + 1] == [b[0]] + b[1..][..j];
      assert a[j + 1] < b[j + 1];
    }
  }

  lemma {:induction false} TextTotal(a: string, b: string)
    ensures TextLe(a, b) || TextLe(b, a)
    ensures TextLe(a, b) && TextLe(b, a) ==> a == b
  {
    if a != [] && b != [] && a[0] == b[0] {
      TextTotal(a[1..], b[1..]);
      assert a == [a[0]] + a[1..] && b == [b[0]] + b[1..];
    }
  }

  lemma {:induction false} TextTransitive(a: string, b: string, c: string)
    requires TextLe(a, b) && TextLe(b, c)
    ensures TextLe(a, c)
  {
    if a != [] && b != [] && c != [] && a[0] == b[0] == c[0] {
      TextTransitive(a[1..], b[1..], c[1..]);
    }
  }

  lemma {:induction false} TextComparison()
    ensures Comparison(TextLe)
  {
    forall a, b ensures TextLe(a, b) || TextLe(b, a) {
      TextTotal(a, b);
    }
    forall a, b, c | TextLe(a, b) && TextLe(b, c) ensures TextLe(a, c) {
      TextTransitive(a, b, c);
    }
  }
}
