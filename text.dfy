/**
  The Python string built-ins the news collector relies on: `in` on strings,
  `str.strip()`, `str.split()`, `str.replace()`, `str.upper()`/`str.lower()`,
  slicing and `str.split(c)[0]`.
*/
module Text {

  /** The characters for which Python's `str.isspace()` holds. */
  predicate IsSpace(c: char) {
    || c == ' '
    || ('\t' <= c <= '\r')
    || ('\U{001C}' <= c <= '\U{001F}')
    || c == '\U{0085}' || c == '\U{00A0}' || c == '\U{1680}'
    || ('\U{2000}' <= c <= '\U{200A}')
    || c == '\U{2028}' || c == '\U{2029}' || c == '\U{202F}' || c == '\U{205F}' || c == '\U{3000}'
  }

  predicate AllSpace(s: string) {
    forall k :: 0 <= k < |s| ==> IsSpace(s[k])
  }

  predicate NoSpace(s: string) {
    forall k :: 0 <= k < |s| ==> !IsSpace(s[k])
  }

  /** `needle` occurs in `hay` starting at index `i`. */
  predicate OccursAt(hay: string, needle: string, i: nat) {
    i + |needle| <= |hay| && hay[i..i + |needle|] == needle
  }

  /** Python's `needle in hay` on two strings. */
  predicate Contains(hay: string, needle: string) {
    exists i: nat :: i <= |hay| && OccursAt(hay, needle, i)
  }

  lemma ContainsTail(hay: string, needle: string)
    requires hay != []
    ensures Contains(hay[1..], needle) ==> Contains(hay, needle)
  {
    if Contains(hay[1..], needle) {
      var i: nat :| i <= |hay| - 1 && OccursAt(hay[1..], needle, i);
      assert hay[i + 1..i + 1 + |needle|] == hay[1..][i..i + |needle|];
      assert OccursAt(hay, needle, i + 1);
    }
  }

  lemma ContainsPrefix(hay: string, needle: string)
    requires |needle| <= |hay| && hay[..|needle|] == needle
    ensures Contains(hay, needle)
  {
    assert OccursAt(hay, needle, 0);
  }

  lemma ContainsInConcat(a: string, b: string, c: string, needle: string)
    requires Contains(b, needle)
    ensures Contains(a + b + c, needle)
  {
    var i: nat :| i <= |b| && OccursAt(b, needle, i);
    assert (a + b + c)[|a| + i..|a| + i + |needle|] == b[i..i + |needle|];
    assert OccursAt(a + b + c, needle, |a| + i);
  }

  /** Only ASCII letters change case in this model. */
  function UpperChar(c: char): char {
    if 'a' <= c <= 'z' then (c as int - 32) as char else c
  }

  function LowerChar(c: char): char {
    if 'A' <= c <= 'Z' then (c as int + 32) as char else c
  }

  /** `str.upper()` restricted to ASCII letters. */
  function Upper(s: string): (r: string)
    ensures |r| == |s| && forall k :: 0 <= k < |s| ==> r[k] == UpperChar(s[k])
  {
    seq(|s|, k requires 0 <= k < |s| => UpperChar(s[k]))
  }

  /** `str.lower()` restricted to ASCII letters. */
  function Lower(s: string): (r: string)
    ensures |r| == |s| && forall k :: 0 <= k < |s| ==> r[k] == LowerChar(s[k])
  {
    seq(|s|, k requires 0 <= k < |s| => LowerChar(s[k]))
  }

  /** Number of whitespace characters at the start of `s`. */
  function LeadingSpace(s: string): (n: nat)
    ensures n <= |s| && AllSpace(s[..n])
    ensures n < |s| ==> !IsSpace(s[n])
    decreases |s|
  {
    if s != [] && IsSpace(s[0]) then 1 + LeadingSpace(s[1..]) else 0
  }

  lemma SuffixOfInit(s: string, m: nat)
    requires m < |s|
    ensures s[|s| - 1 - m..] == s[..|s| - 1][|s| - 1 - m..] + [s[|s| - 1]]
  {
  }

  lemma AllSpaceSnoc(s: string, c: char)
    requires AllSpace(s) && IsSpace(c)
    ensures AllSpace(s + [c])
  {
    assert forall k :: 0 <= k < |s| ==> (s + [c])[k] == s[k];
  }

  /** Number of whitespace characters at the end of `s`. */
  function TrailingSpace(s: string): (n: nat)
    ensures n <= |s| && AllSpace(s[|s| - n..])
    ensures n < |s| ==> !IsSpace(s[|s| - 1 - n])
    decreases |s|
  {
    if s != [] && IsSpace(s[|s| - 1]) then
      var m := TrailingSpace(s[..|s| - 1]);
      SuffixOfInit(s, m);
      AllSpaceSnoc(s[..|s| - 1][|s| - 1 - m..], s[|s| - 1]);
      assert 1 + m < |s| ==> s[|s| - 2 - m] == s[..|s| - 1][|s| - 2 - m];
      1 + m
    else 0
  }

  /**
    Python's `str.strip()`: the longest slice of `s` that neither starts nor ends with
    whitespace, everything around it being whitespace.
  */
  function Strip(s: string): (r: string)
    ensures r == "" || (!IsSpace(r[0]) && !IsSpace(r[|r| - 1]))
    ensures exists i, j :: 0 <= i <= j <= |s| && r == s[i..j] && AllSpace(s[..i]) && AllSpace(s[j..])
  {
    var i := LeadingSpace(s);
    var t := s[i..];
    var n := TrailingSpace(t);
    var r := t[..|t| - n];
    assert r == s[i..i + |r|];
    assert s[i + |r|..] == t[|t| - n..];
    r
  }

  /** Number of non-whitespace characters at the start of `s`. */
  function WordLength(s: string): (n: nat)
    ensures n <= |s| && NoSpace(s[..n])
    ensures n < |s| ==> IsSpace(s[n])
    decreases |s|
  {
    if s != [] && !IsSpace(s[0]) then 1 + WordLength(s[1..]) else 0
  }

  function Concat(words: seq<string>): string {
    if words == [] then "" else words[0] + Concat(words[1..])
  }

  /** The characters of `s` that are not whitespace, in order. */
  function RemoveSpace(s: string): string {
    if s == [] then "" else if IsSpace(s[0]) then RemoveSpace(s[1..]) else [s[0]] + RemoveSpace(s[1..])
  }

  lemma {:induction false} RemoveSpaceConcat(a: string, b: string)
    ensures RemoveSpace(a + b) == RemoveSpace(a) + RemoveSpace(b)
    decreases |a|
  {
    if a == [] {
      assert a + b == b;
    } else {
      assert (a + b)[1..] == a[1..] + b;
      RemoveSpaceConcat(a[1..], b);
    }
  }

  lemma {:induction false} RemoveSpaceOfAllSpace(s: string)
    requires AllSpace(s)
    ensures RemoveSpace(s) == ""
    decreases |s|
  {
    if s != [] {
      RemoveSpaceOfAllSpace(s[1..]);
    }
  }

  lemma {:induction false} RemoveSpaceOfNoSpace(s: string)
    requires NoSpace(s)
    ensures RemoveSpace(s) == s
    decreases |s|
  {
    if s != [] {
      RemoveSpaceOfNoSpace(s[1..]);
    }
  }

  /** Leading whitespace contributes nothing, and the first word is kept whole. */
  lemma RemoveSpaceSplitStep(s: string)
    ensures var t := s[LeadingSpace(s)..];
      RemoveSpace(s) == t[..WordLength(t)] + RemoveSpace(t[WordLength(t)..])
  {
    var i := LeadingSpace(s);
    var t := s[i..];
    var n := WordLength(t);
    assert s == s[..i] + (t[..n] + t[n..]);
    RemoveSpaceConcat(s[..i], t[..n] + t[n..]);
    RemoveSpaceConcat(t[..n], t[n..]);
    RemoveSpaceOfAllSpace(s[..i]);
    RemoveSpaceOfNoSpace(t[..n]);
  }

  /**
    Python's `str.split()` without arguments: the maximal runs of non-whitespace
    characters, in order. Every word is non-empty and whitespace-free, and the words
    put together are exactly the non-whitespace characters of `s`.
  */
  function Split(s: string): (words: seq<string>)
    ensures forall k :: 0 <= k < |words| ==> words[k] != "" && NoSpace(words[k])
    ensures Concat(words) == RemoveSpace(s)
    decreases |s|
  {
    var t := s[LeadingSpace(s)..];
    RemoveSpaceSplitStep(s);
    if t == [] then
      []
    else
      var n := WordLength(t);
      var rest := Split(t[n..]);
      var words := [t[..n]] + rest;
      assert words[0] == t[..n] && words[1..] == rest;
      assert Concat(words) == t[..n] + Concat(rest);
      words
  }

  /**
    Python's `s.replace(pat, rep)`: occurrences of `pat` are replaced left to right,
    scanning on after each replacement.
  */
  function ReplaceAll(s: string, pat: string, rep: string): (r: string)
    requires pat != ""
    ensures !Contains(s, pat) ==> r == s
    ensures |rep| <= |pat| ==> |r| <= |s|
    decreases |s|
  {
    if |s| < |pat| then s
    else if s[..|pat|] == pat then
      ContainsPrefix(s, pat);
      rep + ReplaceAll(s[|pat|..], pat, rep)
    else
      ContainsTail(s, pat);
      [s[0]] + ReplaceAll(s[1..], pat, rep)
  }

  /** A stretch where no occurrence of `pat` starts is copied as it is, and the scan goes on after it. */
  lemma {:induction false} ReplaceAllSkips(a: string, b: string, pat: string, rep: string)
    requires pat != ""
    requires forall i :: 0 <= i < |a| ==> !OccursAt(a + b, pat, i)
    ensures ReplaceAll(a + b, pat, rep) == a + ReplaceAll(b, pat, rep)
    decreases |a|
  {
    if a == [] {
      assert a + b == b;
    } else {
      var s := a + b;
      if |s| < |pat| {
        assert ReplaceAll(b, pat, rep) == b;
      } else {
        assert !OccursAt(s, pat, 0);
        assert s[..|pat|] != pat;
        assert ReplaceAll(s, pat, rep) == [s[0]] + ReplaceAll(s[1..], pat, rep);
        assert s[1..] == a[1..] + b;
        TailSkips(a, b, pat);
        ReplaceAllSkips(a[1..], b, pat, rep);
        var rb := ReplaceAll(b, pat, rep);
        assert ReplaceAll(s[1..], pat, rep) == a[1..] + rb;
        assert [s[0]] + (a[1..] + rb) == ([a[0]] + a[1..]) + rb;
        assert [a[0]] + a[1..] == a;
      }
    }
  }

  lemma TailSkips(a: string, b: string, pat: string)
    requires a != []
    requires forall i :: 0 <= i < |a| ==> !OccursAt(a + b, pat, i)
    ensures forall i :: 0 <= i < |a| - 1 ==> !OccursAt(a[1..] + b, pat, i)
  {
    var s := a + b;
    assert s[1..] == a[1..] + b;
    forall i | 0 <= i < |a| - 1 ensures !OccursAt(s[1..], pat, i) {
      assert !OccursAt(s, pat, i + 1);
      if i + |pat| <= |s[1..]| {
        assert s[1..][i..i + |pat|] == s[i + 1..i + 1 + |pat|];
      }
    }
  }

  /**
    `s.replace(pat, rep)` replaces the first occurrence of `pat`, keeps what comes
    before it, and carries on with the text after it.
  */
  lemma ReplaceAllFirst(a: string, pat: string, rep: string, b: string)
    requires pat != ""
    requires forall i :: 0 <= i < |a| ==> !OccursAt(a + pat + b, pat, i)
    ensures ReplaceAll(a + pat + b, pat, rep) == a + rep + ReplaceAll(b, pat, rep)
  {
    assert a + pat + b == a + (pat + b);
    ReplaceAllSkips(a, pat + b, pat, rep);
    assert (pat + b)[..|pat|] == pat && (pat + b)[|pat|..] == b;
  }

  /** Python's slice `s[:n]`. */
  function Take<T>(s: seq<T>, n: nat): (r: seq<T>)
    ensures |r| <= n && |r| <= |s| && r == s[..|r|]
    ensures |s| <= n ==> r == s
  {
    if |s| <= n then s else s[..n]
  }

  /** Python's `s.split(c)[0]`: the part of `s` before the first `c`. */
  function BeforeFirst(s: string, c: char): (r: string)
    ensures |r| <= |s| && r == s[..|r|] && c !in r
    ensures |r| < |s| ==> s[|r|] == c
    decreases |s|
  {
    if s == [] || s[0] == c then [] else [s[0]] + BeforeFirst(s[1..], c)
  }

  /** The part before the first `c` of `a + [c] + b` is `a` when `a` has no `c`. */
  lemma {:induction false} BeforeFirstAt(a: string, c: char, b: string)
    requires c !in a
    ensures BeforeFirst(a + [c] + b, c) == a
    decreases |a|
  {
    if a != [] {
      assert (a + [c] + b)[1..] == a[1..] + [c] + b;
      BeforeFirstAt(a[1..], c, b);
    }
  }

  /** A text that lacks the first character of a pattern does not contain it. */
  lemma NotContainedWithoutFirstChar(s: string, pat: string)
    requires pat != [] && pat[0] !in s
    ensures !Contains(s, pat)
  {
    forall i: nat | i <= |s| ensures !OccursAt(s, pat, i) {
      if i + |pat| <= |s| {
        assert s[i..i + |pat|][0] == s[i];
        assert s[i] in s;
      }
    }
  }

  lemma WordLengthOf(a: string, rest: string)
    requires NoSpace(a) && (rest == [] || IsSpace(rest[0]))
    ensures WordLength(a + rest) == |a|
  {
    var s := a + rest;
    assert forall k :: 0 <= k < |a| ==> s[k] == a[k];
    assert forall m :: |a| < m <= |s| ==> s[..m][|a|] == rest[0];
  }

  lemma SplitSkipsSpace(c: char, s: string)
    requires IsSpace(c)
    ensures Split([c] + s) == Split(s)
  {
    assert ([c] + s)[1..] == s;
    assert ([c] + s)[LeadingSpace([c] + s)..] == s[LeadingSpace(s)..];
  }

  /** The words of a text that starts with a word followed by whitespace. */
  lemma SplitFirstWord(a: string, c: char, s: string)
    requires a != "" && NoSpace(a) && IsSpace(c)
    ensures Split(a + [c] + s) == [a] + Split(s)
  {
    var t := a + [c] + s;
    assert LeadingSpace(t) == 0 by { assert t[0] == a[0]; }
    assert t[LeadingSpace(t)..] == t;
    WordLengthOf(a, [c] + s);
    assert t == a + ([c] + s);
    assert t[..|a|] == a && t[|a|..] == [c] + s;
    SplitSkipsSpace(c, s);
  }

  /** A single word is its own split. */
  lemma SplitOneWord(a: string)
    requires a != "" && NoSpace(a)
    ensures Split(a) == [a]
  {
    assert LeadingSpace(a) == 0;
    assert a[0..] == a;
    WordLengthOf(a, []);
    assert a + [] == a;
    assert a[|a|..] == [];
  }

  /** The words of two words separated by one blank. */
  lemma SplitTwoWords(a: string, b: string)
    requires a != "" && NoSpace(a) && b != "" && NoSpace(b)
    ensures Split(a + " " + b) == [a, b]
  {
    assert a + " " + b == a + [' '] + b;
    SplitFirstWord(a, ' ', b);
    SplitOneWord(b);
  }
}
