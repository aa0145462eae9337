/** The stored article record and `merge_articles`, the URL-keyed union of two lists. */
module Articles {
  import opened Wrappers
  import opened Seqs

  /**
    One stored article. A missing `url` (or any missing text) is the empty string; a
    missing `date` is `None`. `mentions` is the set of mentioned tickers.
  */
  datatype Article = Article(title: string, desc: string, url: string, date: Option<string>, mentions: set<string>)

  function UrlSet(s: seq<Article>): set<string> {
    set k | 0 <= k < |s| :: s[k].url
  }

  function NonEmptyUrls(s: seq<Article>): set<string> {
    set k | 0 <= k < |s| && s[k].url != "" :: s[k].url
  }

  predicate DistinctUrls(s: seq<Article>) {
    forall i, j :: 0 <= i < j < |s| ==> s[i].url != s[j].url
  }

  predicate NoEmptyUrl(s: seq<Article>) {
    forall i :: 0 <= i < |s| ==> s[i].url != ""
  }

  lemma UrlsCons(a: Article, rest: seq<Article>)
    ensures UrlSet([a] + rest) == {a.url} + UrlSet(rest)
    ensures DistinctUrls(rest) && a.url !in UrlSet(rest) ==> DistinctUrls([a] + rest)
  {
    var r := [a] + rest;
    assert forall k :: 1 <= k < |r| ==> r[k] == rest[k - 1];
    assert r[0] == a;
    forall u | u in UrlSet(r) ensures u == a.url || u in UrlSet(rest) {
      var k :| 0 <= k < |r| && r[k].url == u;
      assert k > 0 ==> rest[k - 1].url == u;
    }
    forall u | u in UrlSet(rest) ensures u in UrlSet(r) {
      var k :| 0 <= k < |rest| && rest[k].url == u;
      assert r[k + 1] == rest[k];
    }
  }

  /**
    Scanning `s` left to right with the URLs in `seen` already taken: an article is
    kept when its URL is non-empty and not yet taken, and its URL is then taken.
  */
  function DedupFrom(s: seq<Article>, seen: set<string>): seq<Article>
    decreases |s|
  {
    if s == [] then []
    else if s[0].url != "" && s[0].url !in seen then [s[0]] + DedupFrom(s[1..], seen + {s[0].url})
    else DedupFrom(s[1..], seen)
  }

  /** The list `merge_articles(existing, incoming)` returns: new articles first. */
  function Merged(existing: seq<Article>, incoming: seq<Article>): seq<Article> {
    DedupFrom(incoming + existing, {})
  }

  lemma DedupStep(s: seq<Article>, i: nat, seen: set<string>)
    requires i < |s|
    ensures DedupFrom(s[i..], seen)
         == if s[i].url != "" && s[i].url !in seen then [s[i]] + DedupFrom(s[i + 1..], seen + {s[i].url})
            else DedupFrom(s[i + 1..], seen)
  {
    assert s[i..][1..] == s[i + 1..];
  }

  /**
    `merge_articles(existing_articles, new_articles)`: a loop over the new articles,
    then one over the existing ones, each appending an article whose URL is non-empty
    and unseen.
  */
  method MergeArticles(existing: seq<Article>, incoming: seq<Article>) returns (merged: seq<Article>)
    ensures merged == Merged(existing, incoming)
  {
    ghost var all := incoming + existing;
    assert all[0..] == all;
    var seen: set<string>;
    merged, seen := AppendUnseen(incoming, all, 0, [], {}, Merged(existing, incoming));
    merged, seen := AppendUnseen(existing, all, |incoming|, merged, seen, Merged(existing, incoming));
    assert all[|incoming| + |existing|..] == [];
  }

  /**
    One loop of `merge_articles` over `items`, which sit at `all[off..]`: appends each
    article whose URL is non-empty and unseen, and marks its URL seen.
  */
  method AppendUnseen(items: seq<Article>, ghost all: seq<Article>, ghost off: nat,
                      merged0: seq<Article>, seen0: set<string>, ghost goal: seq<Article>)
    returns (merged: seq<Article>, seen: set<string>)
    requires off + |items| <= |all| && forall k :: 0 <= k < |items| ==> all[off + k] == items[k]
    requires merged0 + DedupFrom(all[off..], seen0) == goal
    ensures merged + DedupFrom(all[off + |items|..], seen) == goal
  {
    merged, seen := merged0, seen0;
    for i := 0 to |items|
      invariant merged + DedupFrom(all[off + i..], seen) == goal
    {
      merged, seen := DedupOne(items[i], all, off + i, merged, seen, goal);
    }
  }

  /** One article of either loop: appended when its URL is non-empty and unseen. */
  method DedupOne(a: Article, ghost all: seq<Article>, ghost i: nat, merged: seq<Article>, seen: set<string>,
                  ghost goal: seq<Article>)
    returns (merged': seq<Article>, seen': set<string>)
    requires i < |all| && all[i] == a
    requires merged + DedupFrom(all[i..], seen) == goal
    ensures merged' + DedupFrom(all[i + 1..], seen') == goal
  {
    DedupStep(all, i, seen);
    merged', seen' := merged, seen;
    if a.url != "" && a.url !in seen {
      seen' := seen + {a.url};
      merged' := merged + [a];
      assert merged + ([a] + DedupFrom(all[i + 1..], seen')) == merged' + DedupFrom(all[i + 1..], seen');
    }
  }

  /** The kept articles have non-empty URLs, none of them taken before the scan. */
  lemma {:induction false} DedupUrlsFresh(s: seq<Article>, seen: set<string>)
    ensures forall k :: 0 <= k < |DedupFrom(s, seen)| ==> DedupFrom(s, seen)[k].url != "" && DedupFrom(s, seen)[k].url !in seen
    decreases |s|
  {
    if s != [] {
      DedupUrlsFresh(s[1..], seen + {s[0].url});
      DedupUrlsFresh(s[1..], seen);
    }
  }

  /** No URL is kept twice. */
  lemma {:induction false} DedupDistinct(s: seq<Article>, seen: set<string>)
    ensures DistinctUrls(DedupFrom(s, seen))
    decreases |s|
  {
    if s != [] {
      if s[0].url != "" && s[0].url !in seen {
        var rest := DedupFrom(s[1..], seen + {s[0].url});
        DedupDistinct(s[1..], seen + {s[0].url});
        DedupUrlsFresh(s[1..], seen + {s[0].url});
        var r := [s[0]] + rest;
        forall i, j | 0 <= i < j < |r| ensures r[i].url != r[j].url {
          if i > 0 {
            assert r[i] == rest[i - 1] && r[j] == rest[j - 1];
          } else {
            assert r[j] == rest[j - 1];
          }
        }
      } else {
        DedupDistinct(s[1..], seen);
      }
    }
  }

  /** The kept URLs are exactly the non-empty URLs of the input not taken before. */
  lemma {:induction false} DedupUrlSet(s: seq<Article>, seen: set<string>)
    ensures UrlSet(DedupFrom(s, seen)) == NonEmptyUrls(s) - seen
    decreases |s|
  {
    if s != [] {
      var t := s[1..];
      assert forall k :: 1 <= k < |s| ==> s[k] == t[k - 1];
      assert NonEmptyUrls(s) == NonEmptyUrls(t) + (if s[0].url != "" then {s[0].url} else {}) by {
        forall u | u in NonEmptyUrls(s) ensures u in NonEmptyUrls(t) + (if s[0].url != "" then {s[0].url} else {}) {
          var k :| 0 <= k < |s| && s[k].url != "" && s[k].url == u;
          if k > 0 {
            assert t[k - 1].url == u;
          }
        }
        forall u | u in NonEmptyUrls(t) ensures u in NonEmptyUrls(s) {
          var k :| 0 <= k < |t| && t[k].url != "" && t[k].url == u;
          assert s[k + 1].url == u;
        }
      }
      if s[0].url != "" && s[0].url !in seen {
        var rest := DedupFrom(t, seen + {s[0].url});
        DedupUrlSet(t, seen + {s[0].url});
        var r := [s[0]] + rest;
        assert UrlSet(r) == UrlSet(rest) + {s[0].url} by {
          assert forall k :: 1 <= k < |r| ==> r[k] == rest[k - 1];
          forall u | u in UrlSet(r) ensures u in UrlSet(rest) + {s[0].url} {
            var k :| 0 <= k < |r| && r[k].url == u;
            if k > 0 {
              assert rest[k - 1].url == u;
            }
          }
          forall u | u in UrlSet(rest) ensures u in UrlSet(r) {
            var k :| 0 <= k < |rest| && rest[k].url == u;
            assert r[k + 1].url == u;
          }
        }
      } else {
        DedupUrlSet(t, seen);
      }
    }
  }

  /** The kept articles appear in the input, in the input's order. */
  lemma {:induction false} DedupIsSubseq(s: seq<Article>, seen: set<string>)
    ensures IsSubseq(DedupFrom(s, seen), s)
    decreases |s|
  {
    if s != [] {
      if s[0].url != "" && s[0].url !in seen {
        DedupIsSubseq(s[1..], seen + {s[0].url});
        SubseqCons(s[0], DedupFrom(s[1..], seen + {s[0].url}), s[1..]);
        assert [s[0]] + s[1..] == s;
      } else {
        DedupIsSubseq(s[1..], seen);
        SubseqOfTail(DedupFrom(s[1..], seen), s);
      }
    }
  }

  /** The `i`-th article is the first one carrying its (non-empty) URL. */
  predicate FirstOfUrl(s: seq<Article>, i: nat) {
    i < |s| && s[i].url != "" && forall j :: 0 <= j < i ==> s[j].url != s[i].url
  }

  /**
    An article is kept exactly when it is the first of the input with its URL and
    that URL was not taken before the scan.
  */
  lemma {:induction false} DedupMembers(s: seq<Article>, seen: set<string>, a: Article)
    ensures a in DedupFrom(s, seen) <==> exists i: nat :: FirstOfUrl(s, i) && s[i] == a && a.url !in seen
    decreases |s|
  {
    if s != [] {
      var t := s[1..];
      var seen' := if s[0].url != "" && s[0].url !in seen then seen + {s[0].url} else seen;
      DedupMembers(t, seen', a);
      if a in DedupFrom(s, seen) {
        if s[0].url != "" && s[0].url !in seen && a == s[0] {
          assert FirstOfUrl(s, 0);
        } else {
          assert a in DedupFrom(t, seen');
          var i: nat :| FirstOfUrl(t, i) && t[i] == a && a.url !in seen';
          assert s[i + 1] == a;
          assert FirstOfUrl(s, i + 1) by {
            forall j | 0 <= j < i + 1 ensures s[j].url != a.url {
              if j > 0 {
                assert s[j] == t[j - 1];
              }
            }
          }
        }
      }
      if exists i: nat :: FirstOfUrl(s, i) && s[i] == a && a.url !in seen {
        var i: nat :| FirstOfUrl(s, i) && s[i] == a && a.url !in seen;
        if i > 0 {
          assert s[0].url != a.url;
          assert t[i - 1] == a;
          assert FirstOfUrl(t, i - 1) by {
            forall j | 0 <= j < i - 1 ensures t[j].url != a.url {
              assert t[j] == s[j + 1];
            }
          }
          assert a.url !in seen';
        }
      }
    }
  }

  /** A list with distinct, non-empty, untaken URLs passes the scan unchanged. */
  lemma {:induction false} DedupOfDistinct(s: seq<Article>, seen: set<string>)
    requires DistinctUrls(s) && NoEmptyUrl(s)
    requires forall k :: 0 <= k < |s| ==> s[k].url !in seen
    ensures DedupFrom(s, seen) == s
    decreases |s|
  {
    if s != [] {
      var t := s[1..];
      assert forall k :: 0 <= k < |t| ==> t[k] == s[k + 1];
      DedupOfDistinct(t, seen + {s[0].url});
      assert [s[0]] + t == s;
    }
  }

  /**
    The merged list carries every non-empty URL of the two inputs exactly once, in an
    order-preserving selection of `new + existing`.
  */
  lemma MergedUrls(existing: seq<Article>, incoming: seq<Article>)
    ensures var m := Merged(existing, incoming);
      DistinctUrls(m) && NoEmptyUrl(m) && UrlSet(m) == NonEmptyUrls(incoming + existing)
      && IsSubseq(m, incoming + existing)
  {
    DedupDistinct(incoming + existing, {});
    DedupUrlsFresh(incoming + existing, {});
    DedupUrlSet(incoming + existing, {});
    DedupIsSubseq(incoming + existing, {});
  }

  /**
    On a URL collision the new article is the one kept: a kept article whose URL
    occurs among the new articles is the first new article with that URL.
  */
  lemma NewArticleWins(existing: seq<Article>, incoming: seq<Article>, a: Article, i: nat)
    requires a in Merged(existing, incoming)
    requires FirstOfUrl(incoming, i) && incoming[i].url == a.url
    ensures a == incoming[i]
  {
    var s := incoming + existing;
    DedupMembers(s, {}, a);
    var k: nat :| FirstOfUrl(s, k) && s[k] == a;
    assert s[i] == incoming[i];
    assert !(i < k);
    assert FirstOfUrl(s, i) by {
      forall j | 0 <= j < i ensures s[j].url != s[i].url {
        assert s[j] == incoming[j];
      }
    }
  }

  /** Every article that is the first with its URL in `new + existing` is kept. */
  lemma FirstOfUrlKept(existing: seq<Article>, incoming: seq<Article>, i: nat)
    requires FirstOfUrl(incoming + existing, i)
    ensures (incoming + existing)[i] in Merged(existing, incoming)
  {
    DedupMembers(incoming + existing, {}, (incoming + existing)[i]);
  }

  /** Merging a merged list with no new articles leaves it unchanged. */
  lemma MergeIdempotent(existing: seq<Article>, incoming: seq<Article>)
    ensures Merged(Merged(existing, incoming), []) == Merged(existing, incoming)
  {
    var m := Merged(existing, incoming);
    MergedUrls(existing, incoming);
    assert [] + m == m;
    DedupOfDistinct(m, {});
  }
}
