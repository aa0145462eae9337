/** Python's ordering of `str` values and `sorted()` of a set of strings. */
module StrOrder {

  /** Python's `a < b` on strings: code-point lexicographic order, a proper prefix first. */
  predicate LexLess(a: string, b: string): (r: bool)
    ensures r ==> a != b
    ensures a == [] ==> (r <==> b != [])
    decreases |a|
  {
    b != [] && (a == [] || a[0] < b[0] || (a[0] == b[0] && LexLess(a[1..], b[1..])))
  }

  lemma {:induction false} LexIrreflexive(a: string)
    ensures !LexLess(a, a)
    decreases |a|
  {
    if a != [] {
      LexIrreflexive(a[1..]);
    }
  }

  lemma {:induction false} LexTransitive(a: string, b: string, c: string)
    requires LexLess(a, b) && LexLess(b, c)
    ensures LexLess(a, c)
    decreases |a|
  {
    if a != [] && a[0] == b[0] && b[0] == c[0] {
      LexTransitive(a[1..], b[1..], c[1..]);
    }
  }

  lemma {:induction false} LexTotal(a: string, b: string)
    requires a != b
    ensures LexLess(a, b) || LexLess(b, a)
    decreases |a|
  {
    if a != [] && b != [] && a[0] == b[0] {
      assert a == [a[0]] + a[1..] && b == [b[0]] + b[1..];
      LexTotal(a[1..], b[1..]);
    }
  }

  lemma {:induction false} LexAsymmetric(a: string, b: string)
    requires LexLess(a, b)
    ensures !LexLess(b, a)
  {
    if LexLess(b, a) {
      LexTransitive(a, b, a);
      LexIrreflexive(a);
    }
  }

  predicate StrictlySorted(l: seq<string>) {
    forall i, j :: 0 <= i < j < |l| ==> LexLess(l[i], l[j])
  }

  predicate IsLeast(m: string, s: set<string>) {
    m in s && forall x :: x in s && x != m ==> LexLess(m, x)
  }

  lemma {:induction false} LeastExists(s: set<string>)
    requires s != {}
    ensures exists m :: IsLeast(m, s)
    decreases |s|
  {
    var y :| y in s;
    if s != {y} {
      LeastExists(s - {y});
      var m :| IsLeast(m, s - {y});
      if LexLess(m, y) {
        assert IsLeast(m, s);
      } else {
        LexTotal(m, y);
        forall x | x in s && x != y ensures LexLess(y, x) {
          if x != m {
            LexTransitive(y, m, x);
          }
        }
        assert IsLeast(y, s);
      }
    } else {
      assert IsLeast(y, s);
    }
  }

  /** `sorted(s)` for a set of strings: its elements in increasing order. */
  ghost function SortedOf(s: set<string>): (l: seq<string>)
    ensures StrictlySorted(l) && |l| == |s|
    ensures forall x :: x in l <==> x in s
    decreases |s|
  {
    if s == {} then []
    else
      LeastExists(s);
      var m :| IsLeast(m, s);
      var rest := SortedOf(s - {m});
      LeastFirst(m, s, rest);
      [m] + rest
  }

  lemma LeastFirst(m: string, s: set<string>, rest: seq<string>)
    requires IsLeast(m, s) && StrictlySorted(rest) && forall x :: x in rest <==> x in s - {m}
    ensures StrictlySorted([m] + rest)
  {
    assert forall j :: 0 <= j < |rest| ==> rest[j] in s - {m};
    assert forall j :: 1 <= j <= |rest| ==> ([m] + rest)[j] == rest[j - 1];
  }

  /** A set has one increasing enumeration. */
  lemma {:induction false} SortedUnique(l1: seq<string>, l2: seq<string>)
    requires StrictlySorted(l1) && StrictlySorted(l2)
    requires forall x :: x in l1 <==> x in l2
    ensures l1 == l2
    decreases |l1|
  {
    assert |l1| == 0 <==> |l2| == 0 by {
      assert l1 != [] ==> l1[0] in l1;
      assert l2 != [] ==> l2[0] in l2;
    }
    if l1 != [] && l2 != [] {
      assert l1[0] == l2[0] by {
        if l1[0] != l2[0] {
          assert l1[0] in l1 && l2[0] in l2;
          var i :| 0 <= i < |l2| && l2[i] == l1[0];
          var j :| 0 <= j < |l1| && l1[j] == l2[0];
          assert LexLess(l2[0], l1[0]) by { assert i > 0; }
          assert LexLess(l1[0], l2[0]) by { assert j > 0; }
          LexAsymmetric(l1[0], l2[0]);
        }
      }
      forall x ensures x in l1[1..] <==> x in l2[1..] {
        if x in l1[1..] {
          var i :| 0 <= i < |l1| - 1 && l1[1..][i] == x;
          assert LexLess(l1[0], l1[i + 1]);
          LexIrreflexive(x);
          assert x in l2;
          var k :| 0 <= k < |l2| && l2[k] == x;
          assert k != 0;
          assert l2[1..][k - 1] == x;
        }
        if x in l2[1..] {
          var i :| 0 <= i < |l2| - 1 && l2[1..][i] == x;
          assert LexLess(l2[0], l2[i + 1]);
          LexIrreflexive(x);
          assert x in l1;
          var k :| 0 <= k < |l1| && l1[k] == x;
          assert k != 0;
          assert l1[1..][k - 1] == x;
        }
      }
      SortedUnique(l1[1..], l2[1..]);
      assert l1 == [l1[0]] + l1[1..] && l2 == [l2[0]] + l2[1..];
    }
  }

  /** `sorted(s)`: the least remaining element is taken until none is left. */
  method SortedList(s: set<string>) returns (l: seq<string>)
    ensures l == SortedOf(s)
  {
    l := [];
    var rest := s;
    while rest != {}
      invariant StrictlySorted(l)
      invariant forall x :: x in s <==> x in l || x in rest
      invariant forall x :: x in l ==> x !in rest
      invariant forall i, y :: 0 <= i < |l| && y in rest ==> LexLess(l[i], y)
      decreases |rest|
    {
      LeastExists(rest);
      var m :| IsLeast(m, rest);
      l := l + [m];
      rest := rest - {m};
    }
    SortedUnique(l, SortedOf(s));
  }
}
