/**
  `clean_html`: remove every match of the regular expression `<[^>]+>`, decode five
  character entities in a fixed order, then strip surrounding whitespace.
*/
module Html {
  import opened Text
  import opened Seqs

  /** Index of the first `>` at or after `i`, or `|s|` when there is none. */
  function NextClose(s: string, i: nat): (k: nat)
    requires i <= |s|
    ensures i <= k <= |s|
    ensures forall j :: i <= j < k ==> s[j] != '>'
    ensures k < |s| ==> s[k] == '>'
    decreases |s| - i
  {
    if i == |s| || s[i] == '>' then i else NextClose(s, i + 1)
  }

  /**
    A match of `<[^>]+>` starts at index `i`: a `<`, at least one character other
    than `>`, then the first `>` after it. `[^>]` also matches `<` and newlines.
  */
  predicate TagAt(s: string, i: nat) {
    i < |s| && s[i] == '<' && i + 1 < NextClose(s, i + 1) < |s|
  }

  /** No match of `<[^>]+>` anywhere in `s`. */
  predicate TagFree(s: string) {
    forall i: nat :: i < |s| ==> !TagAt(s, i)
  }

  /**
    `re.sub(r"<[^>]+>", "", s)` as a left-to-right scanner: at a match the whole
    match is dropped and scanning resumes after its `>`; otherwise one character is
    kept.
  */
  function StripTags(s: string): (r: string)
    ensures |r| <= |s|
    decreases |s|
  {
    if s == [] then []
    else if TagAt(s, 0) then StripTags(s[NextClose(s, 1) + 1..])
    else [s[0]] + StripTags(s[1..])
  }

  /** The entity replacements of `clean_html`, in the order the code applies them. */
  function DecodeEntities(s: string): (r: string)
    ensures |r| <= |s|
    ensures '&' !in s ==> r == s
  {
    NoAmpersandNoEntity(s);
    var s1 := ReplaceAll(s, "&quot;", "\"");
    var s2 := ReplaceAll(s1, "&amp;", "&");
    var s3 := ReplaceAll(s2, "&lt;", "<");
    var s4 := ReplaceAll(s3, "&gt;", ">");
    ReplaceAll(s4, "&apos;", "'")
  }

  /** Text without `&` contains none of the five entities. */
  lemma NoAmpersandNoEntity(s: string)
    ensures '&' !in s ==> !Contains(s, "&quot;") && !Contains(s, "&amp;") && !Contains(s, "&lt;")
    ensures '&' !in s ==> !Contains(s, "&gt;") && !Contains(s, "&apos;")
  {
    if '&' !in s {
      NotContainedWithoutFirstChar(s, "&quot;");
      NotContainedWithoutFirstChar(s, "&amp;");
      NotContainedWithoutFirstChar(s, "&lt;");
      NotContainedWithoutFirstChar(s, "&gt;");
      NotContainedWithoutFirstChar(s, "&apos;");
    }
  }

  /** `clean_html(text)`: the result never starts or ends with whitespace. */
  function CleanHtml(text: string): (r: string)
    ensures r == "" || (!IsSpace(r[0]) && !IsSpace(r[|r| - 1]))
  {
    Strip(DecodeEntities(StripTags(text)))
  }

  lemma {:induction false} NextCloseShift(c: char, t: string, i: nat)
    requires i <= |t|
    ensures NextClose([c] + t, i + 1) == 1 + NextClose(t, i)
    decreases |t| - i
  {
    assert ([c] + t)[i + 1..] == t[i..];
    if i < |t| && t[i] != '>' {
      NextCloseShift(c, t, i + 1);
    }
  }

  lemma TagAtShift(c: char, t: string, i: nat)
    ensures TagAt([c] + t, i + 1) <==> TagAt(t, i)
  {
    if i < |t| {
      NextCloseShift(c, t, i + 1);
    }
  }

  /** The tag stripper keeps, in order, a selection of the input's characters. */
  lemma {:induction false} StripTagsIsSubseq(s: string)
    ensures IsSubseq(StripTags(s), s)
    decreases |s|
  {
    if s != [] {
      if TagAt(s, 0) {
        var k := NextClose(s, 1) + 1;
        StripTagsIsSubseq(s[k..]);
        SubseqDrop(StripTags(s[k..]), s, k);
      } else {
        StripTagsIsSubseq(s[1..]);
        SubseqCons(s[0], StripTags(s[1..]), s[1..]);
        assert [s[0]] + s[1..] == s;
      }
    }
  }

  lemma StripTagsKeepsNoClose(s: string)
    requires '>' !in s
    ensures '>' !in StripTags(s)
  {
    StripTagsIsSubseq(s);
    SubseqElements(StripTags(s), s);
  }

  /** No match of `<[^>]+>` survives the stripping. */
  lemma {:induction false} StripTagsTagFree(s: string)
    ensures TagFree(StripTags(s))
    decreases |s|
  {
    if s != [] {
      if TagAt(s, 0) {
        StripTagsTagFree(s[NextClose(s, 1) + 1..]);
      } else {
        var rest := StripTags(s[1..]);
        var r := [s[0]] + rest;
        StripTagsTagFree(s[1..]);
        forall i: nat | i < |r| ensures !TagAt(r, i) {
          if i == 0 {
            if s[0] == '<' {
              var k := NextClose(s, 1);
              if k == |s| {
                assert '>' !in s[1..];
                StripTagsKeepsNoClose(s[1..]);
                assert '>' !in r[1..];
                assert NextClose(r, 1) == |r|;
              } else {
                assert k == 1 && s[1] == '>';
                assert !TagAt(s[1..], 0);
                assert r[1] == '>';
              }
            }
          } else {
            TagAtShift(s[0], rest, i - 1);
          }
        }
      }
    }
  }

  /** Text with no tag in it passes through the stripper unchanged. */
  lemma {:induction false} StripTagsOfTagFree(s: string)
    requires TagFree(s)
    ensures StripTags(s) == s
    decreases |s|
  {
    if s != [] {
      assert !TagAt(s, 0);
      forall i: nat | i < |s| - 1 ensures !TagAt(s[1..], i) {
        assert [s[0]] + s[1..] == s;
        TagAtShift(s[0], s[1..], i);
      }
      StripTagsOfTagFree(s[1..]);
    }
  }

  /** Stripping tags twice is stripping them once. */
  lemma StripTagsIdempotent(s: string)
    ensures StripTags(StripTags(s)) == StripTags(s)
  {
    StripTagsTagFree(s);
    StripTagsOfTagFree(StripTags(s));
  }

  /** Text without `<` or `&` is only stripped of surrounding whitespace. */
  lemma CleanPlainText(s: string)
    requires '<' !in s && '&' !in s
    ensures CleanHtml(s) == Strip(s)
  {
    StripTagsOfTagFree(s);
    NotContainedWithoutFirstChar(s, "&quot;");
    NotContainedWithoutFirstChar(s, "&amp;");
    NotContainedWithoutFirstChar(s, "&lt;");
    NotContainedWithoutFirstChar(s, "&gt;");
    NotContainedWithoutFirstChar(s, "&apos;");
  }

  /** If every `&` of `s` is at `p` and `pat` (which starts with `&`) does not occur there, `s` lacks `pat`. */
  lemma AbsentUnlessAt(s: string, pat: string, p: nat)
    requires pat != [] && pat[0] == '&'
    requires forall i :: 0 <= i < |s| && i != p ==> s[i] != '&'
    requires !OccursAt(s, pat, p)
    ensures !Contains(s, pat)
  {
    forall i: nat | i <= |s| ensures !OccursAt(s, pat, i) {
      if i != p && i + |pat| <= |s| {
        assert s[i..i + |pat|][0] == s[i];
      }
    }
  }

  /** One `&lt;` in text with no other `&` decodes to `<`, and nothing else changes. */
  lemma DecodeSingleLessThan(a: string, b: string)
    requires '&' !in a && '&' !in b
    ensures DecodeEntities(a + "&lt;" + b) == a + "<" + b
  {
    var s := a + "&lt;" + b;
    var p := |a|;
    forall i | 0 <= i < |s| && i != p ensures s[i] != '&' {
      if i < p {
        assert s[i] == a[i] && a[i] in a;
      } else if i >= p + 4 {
        assert s[i] == b[i - p - 4] && b[i - p - 4] in b;
      }
    }
    assert s[p + 1] == 'l';
    assert !OccursAt(s, "&quot;", p) by { if p + 6 <= |s| { assert s[p..p + 6][1] == 'l'; } }
    assert !OccursAt(s, "&amp;", p) by { if p + 5 <= |s| { assert s[p..p + 5][1] == 'l'; } }
    AbsentUnlessAt(s, "&quot;", p);
    AbsentUnlessAt(s, "&amp;", p);
    forall i | 0 <= i < |a| ensures !OccursAt(s, "&lt;", i) {
      assert s[i] != '&';
      if i + 4 <= |s| { assert s[i..i + 4][0] == s[i]; }
    }
    ReplaceAllFirst(a, "&lt;", "<", b);
    NotContainedWithoutFirstChar(b, "&lt;");
    var t := a + "<" + b;
    assert '&' !in t;
    NotContainedWithoutFirstChar(t, "&gt;");
    NotContainedWithoutFirstChar(t, "&apos;");
  }

  lemma TagFreeWithoutOpen(s: string)
    requires '<' !in s
    ensures TagFree(s)
  {
    forall i: nat | i < |s| ensures !TagAt(s, i) {
      assert s[i] in s;
    }
  }

  /** A pattern that does not start the text and whose first character does not occur later is left alone. */
  lemma ReplaceAbsent(s: string, pat: string, rep: string)
    requires pat != [] && s != [] && !(|pat| <= |s| && s[..|pat|] == pat) && pat[0] !in s[1..]
    ensures ReplaceAll(s, pat, rep) == s
  {
    NotContainedWithoutFirstChar(s[1..], pat);
    if |s| >= |pat| {
      assert [s[0]] + s[1..] == s;
    }
  }

  /** Text whose ends are not whitespace is left alone by `strip()`. */
  lemma StripUnspaced(s: string)
    requires s != [] && !IsSpace(s[0]) && !IsSpace(s[|s| - 1])
    ensures Strip(s) == s
  {
    assert LeadingSpace(s) == 0 && TrailingSpace(s) == 0;
  }

  lemma DecodeQuotAbsent()
    ensures ReplaceAll("&amp;lt;", "&quot;", "\"") == "&amp;lt;"
  {
    var s0 := "&amp;lt;";
    assert s0[..6][1] == 'a';
    ReplaceAbsent(s0, "&quot;", "\"");
  }

  lemma DecodeAmpFirst()
    ensures ReplaceAll("&amp;lt;", "&amp;", "&") == "&lt;"
  {
    var s0 := "&amp;lt;";
    assert s0[..5] == "&amp;" && s0[5..] == "lt;";
  }

  lemma DecodeLtLast()
    ensures ReplaceAll(ReplaceAll(ReplaceAll("&lt;", "&lt;", "<"), "&gt;", ">"), "&apos;", "'") == "<"
  {
    assert ReplaceAll("&lt;", "&lt;", "<") == "<";
    assert ReplaceAll("<", "&gt;", ">") == "<";
  }

  /** `&amp;` is decoded before `&lt;`, so a doubly escaped `<` comes out as `<`. */
  lemma DoublyEscapedLessThan()
    ensures CleanHtml("&amp;lt;") == "<"
  {
    var s0 := "&amp;lt;";
    TagFreeWithoutOpen(s0);
    StripTagsOfTagFree(s0);
    DecodeQuotAbsent();
    DecodeAmpFirst();
    DecodeLtLast();
    assert DecodeEntities(s0) == "<";
    StripUnspaced("<");
  }
}
