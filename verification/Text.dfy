/**
 Joining of strings with a separator that occurs in none of them: the way identifier signatures
 ('+') and Redis keys (':') are put together, and why they can be taken apart again.
 */
module Text {

  predicate Free(c: char, s: string) {
    forall i :: 0 <= i < |s| ==> s[i] != c
  }

  /** Python's sep.join(parts). */
  function Join(sep: char, parts: seq<string>): string {
    if parts == [] then ""
    else if |parts| == 1 then parts[0]
    else parts[0] + [sep] + Join(sep, parts[1..])
  }

  ghost predicate AllFree(c: char, parts: seq<string>) {
    forall i :: 0 <= i < |parts| ==> Free(c, parts[i])
  }

  /** The text before the first separator, and the rest, are determined by the whole. */
  lemma {:induction false} CutUnique(sep: char, a: string, x: string, b: string, y: string)
    requires Free(sep, a) && Free(sep, b)
    requires a + [sep] + x == b + [sep] + y
    ensures a == b && x == y
  {
    var l, r := a + [sep] + x, b + [sep] + y;
    assert l[|a|] == sep && r[|b|] == sep;
    assert forall i :: 0 <= i < |a| ==> l[i] == a[i] != sep;
    assert forall i :: 0 <= i < |b| ==> r[i] == b[i] != sep;
    assert |a| == |b|;
    assert a == l[..|a|] == r[..|b|] == b;
    assert x == l[|a| + 1..] == r[|b| + 1..] == y;
  }

  lemma {:induction false} CutNeeded(sep: char, a: string, b: string, y: string)
    requires Free(sep, a)
    ensures a != b + [sep] + y
  {
    assert (b + [sep] + y)[|b|] == sep;
  }

  lemma {:induction false} JoinInjective(sep: char, a: seq<string>, b: seq<string>)
    requires a != [] && b != [] && AllFree(sep, a) && AllFree(sep, b)
    requires Join(sep, a) == Join(sep, b)
    ensures a == b
  {
    if |a| == 1 && |b| == 1 {
    } else if |a| == 1 {
      CutNeeded(sep, a[0], b[0], Join(sep, b[1..]));
    } else if |b| == 1 {
      CutNeeded(sep, b[0], a[0], Join(sep, a[1..]));
    } else {
      CutUnique(sep, a[0], Join(sep, a[1..]), b[0], Join(sep, b[1..]));
      JoinInjective(sep, a[1..], b[1..]);
      assert a == [a[0]] + a[1..] && b == [b[0]] + b[1..];
    }
  }
}
